/**
 * matchWild of SPIFFSEditor.cpp: greedy matching of a name against a pattern with '?' and '*',
 * backtracking to the last star only.
 */
module WildcardMatch {

  // ---------- the language of a pattern ----------

  // '?' is any one character, '*' is any string, every other character is itself.
  predicate Matches(p: string, t: string)
    decreases |p|
  {
    if p == "" then t == ""
    else if p[0] == '*' then exists k | 0 <= k <= |t| :: Matches(p[1..], t[k..])
    else t != "" && MatchesChar(p[0], t[0]) && Matches(p[1..], t[1..])
  }

  predicate MatchesChar(c: char, d: char) {
    c == '?' || c == d
  }

  // ---------- the search, as a function ----------

  // The last star and the place in the name where its string currently ends.
  datatype Mark = Unset | Star(pat: nat, tst: nat)

  function Backtracked(mark: Mark): nat {
    if mark.Star? then mark.tst else 0
  }

  predicate Placed(p: string, t: string, i: nat, j: nat, mark: Mark) {
    && i <= |p| && j <= |t|
    && (mark.Star? ==> mark.pat < i && mark.tst <= j && p[mark.pat] == '*')
  }

  // The result of the loop from pattern + i, testee + j.  Its measure is lexicographic: a backtracking
  // step moves the mark forward, any other step moves one of the two pointers.
  function Search(p: string, t: string, i: nat, j: nat, mark: Mark): bool
    requires Placed(p, t, i, j, mark)
    decreases |t| - Backtracked(mark), |t| - j, |p| - i
  {
    if j == |t| then AllStars(p[i..])
    else if i < |p| && MatchesChar(p[i], t[j]) then Search(p, t, i + 1, j + 1, mark)
    else if i < |p| && p[i] == '*' then Search(p, t, i + 1, j, Star(i, j))
    else if mark.Star? then Search(p, t, mark.pat + 1, mark.tst + 1, Star(mark.pat, mark.tst + 1))
    else false
  }

  predicate AllStars(p: string) {
    p != "" ==> p[0] == '*' && AllStars(p[1..])
  }

  // ---------- the loop ----------

  // The C strings end where the sequences end.
  method MatchWild(pattern: string, testee: string) returns (r: bool)
    ensures r == Search(pattern, testee, 0, 0, Unset)
    ensures r ==> Matches(pattern, testee)
    ensures '*' !in testee ==> (r <==> Matches(pattern, testee))
  {
    SearchDecides(pattern, testee);
    var p, t := 0, 0;
    var nxPat, nxTst := -1, 0;
    while t < |testee|
      invariant nxPat >= -1 && nxTst >= 0
      invariant Placed(pattern, testee, p, t, if nxPat >= 0 then Star(nxPat, nxTst) else Unset)
      invariant Search(pattern, testee, 0, 0, Unset)
             == Search(pattern, testee, p, t, if nxPat >= 0 then Star(nxPat, nxTst) else Unset)
      decreases |testee| - (if nxPat >= 0 then nxTst else 0), |testee| - t, |pattern| - p
    {
      if p < |pattern| && (pattern[p] == '?' || pattern[p] == testee[t]) {
        p, t := p + 1, t + 1;
        continue;
      }
      if p < |pattern| && pattern[p] == '*' {
        nxPat, p, nxTst := p, p + 1, t;
        continue;
      }
      if nxPat >= 0 {
        nxTst := nxTst + 1;
        p, t := nxPat + 1, nxTst;
        continue;
      }
      return false;
    }
    while p < |pattern| && pattern[p] == '*'
      invariant p <= |pattern|
      invariant Search(pattern, testee, 0, 0, Unset) == AllStars(pattern[p..])
    {
      assert pattern[p..][1..] == pattern[p + 1..];
      p := p + 1;
    }
    r := p == |pattern|;
  }

  // ---------- soundness, for every name ----------

  // What remains to be decided: the rest of the pattern against the rest of the name, or a longer
  // string for the last star.
  ghost predicate Open(p: string, t: string, i: nat, j: nat, mark: Mark)
    requires Placed(p, t, i, j, mark)
  {
    Matches(p[i..], t[j..]) || LongerStar(p, t, mark)
  }

  ghost predicate LongerStar(p: string, t: string, mark: Mark)
    requires mark.Star? ==> mark.pat < |p| && mark.tst <= |t|
  {
    mark.Star? && exists k | mark.tst < k <= |t| :: Matches(p[mark.pat + 1..], t[k..])
  }

  // A star and one split of what it has to match.
  lemma StarMatches(p: string, t: string, k: nat)
    requires p != "" && p[0] == '*' && k <= |t| && Matches(p[1..], t[k..])
    ensures Matches(p, t)
  {
  }

  lemma {:induction false} AllStarsMatchEmpty(p: string)
    ensures Matches(p, "") <==> AllStars(p)
  {
    if p != "" {
      AllStarsMatchEmpty(p[1..]);
      assert ""[0..] == "";
      if p[0] == '*' && Matches(p[1..], "") {
        StarMatches(p, "", 0);
      }
    }
  }

  lemma {:induction false} SearchIsSound(p: string, t: string, i: nat, j: nat, mark: Mark)
    requires Placed(p, t, i, j, mark)
    ensures Search(p, t, i, j, mark) ==> Open(p, t, i, j, mark)
    decreases |t| - Backtracked(mark), |t| - j, |p| - i
  {
    if j == |t| {
      assert t[j..] == "";
      AllStarsMatchEmpty(p[i..]);
    } else if i < |p| && MatchesChar(p[i], t[j]) {
      SearchIsSound(p, t, i + 1, j + 1, mark);
      if Matches(p[i + 1..], t[j + 1..]) {
        OneCharacter(p, t, i, j);
      }
    } else if i < |p| && p[i] == '*' {
      SearchIsSound(p, t, i + 1, j, Star(i, j));
      if Open(p, t, i + 1, j, Star(i, j)) {
        StarSplits(p, t, i, j);
      }
    } else if mark.Star? {
      SearchIsSound(p, t, mark.pat + 1, mark.tst + 1, Star(mark.pat, mark.tst + 1));
    }
  }

  // A literal match of one character; a star in the name also matches a star in the pattern.
  lemma OneCharacter(p: string, t: string, i: nat, j: nat)
    requires i < |p| && j < |t| && MatchesChar(p[i], t[j])
    ensures Matches(p[i + 1..], t[j + 1..]) ==> Matches(p[i..], t[j..])
    ensures p[i] != '*' ==> (Matches(p[i..], t[j..]) <==> Matches(p[i + 1..], t[j + 1..]))
  {
    assert p[i..][1..] == p[i + 1..] && t[j..][1..] == t[j + 1..];
    if Matches(p[i + 1..], t[j + 1..]) && p[i] == '*' {
      StarMatches(p[i..], t[j..], 1);
    }
  }

  // The string of a star is empty, or the mark can move forward.
  lemma StarSplits(p: string, t: string, i: nat, j: nat)
    requires i < |p| && j <= |t| && p[i] == '*'
    ensures Matches(p[i..], t[j..]) <==> Matches(p[i + 1..], t[j..]) || LongerStar(p, t, Star(i, j))
  {
    assert p[i..][1..] == p[i + 1..];
    if Matches(p[i..], t[j..]) {
      var k :| 0 <= k <= |t[j..]| && Matches(p[i..][1..], t[j..][k..]);
      assert t[j..][k..] == t[j + k..];
    }
    if Matches(p[i + 1..], t[j..]) {
      assert t[j..][0..] == t[j..];
      StarMatches(p[i..], t[j..], 0);
    }
    if LongerStar(p, t, Star(i, j)) {
      var k :| j < k <= |t| && Matches(p[i + 1..], t[k..]);
      assert t[j..][k - j..] == t[k..];
      StarMatches(p[i..], t[j..], k - j);
    }
  }

  // ---------- exactness, for names without a star ----------

  // Since the mark was set, pattern and name have advanced together over characters that are no stars.
  ghost predicate InStep(p: string, i: nat, j: nat, mark: Mark) {
    mark.Star? ==>
      && mark.pat < i <= |p| && mark.tst <= j
      && i - (mark.pat + 1) == j - mark.tst
      && '*' !in p[mark.pat + 1..i]
  }

  // Characters that are no stars consume exactly as many characters of the name.
  lemma {:induction false} FixedPrefix(q: string, u: string, m: nat)
    requires m <= |q| && '*' !in q[..m] && Matches(q, u)
    ensures m <= |u| && Matches(q[m..], u[m..])
  {
    if m == 0 {
      assert q[0..] == q && u[0..] == u;
    } else {
      assert q[0] == q[..m][0];
      assert q[1..][..m - 1] == q[..m][1..];
      FixedPrefix(q[1..], u[1..], m - 1);
      assert q[1..][m - 1..] == q[m..] && u[1..][m - 1..] == u[m..];
    }
  }

  // Once the name is used up, or once a later star has been reached, an earlier star gains nothing
  // by taking a longer string.
  lemma LongerStarGainsNothing(p: string, t: string, i: nat, j: nat, mark: Mark)
    requires Placed(p, t, i, j, mark) && InStep(p, i, j, mark) && LongerStar(p, t, mark)
    ensures j < |t|
    ensures i < |p| && p[i] == '*' ==> Matches(p[i..], t[j..])
  {
    hide Matches;
    var k :| mark.tst < k <= |t| && Matches(p[mark.pat + 1..], t[k..]);
    var q, u, m := p[mark.pat + 1..], t[k..], i - (mark.pat + 1);
    assert q[..m] == p[mark.pat + 1..i];
    FixedPrefix(q, u, m);
    assert q[m..] == p[i..] && u[m..] == t[k + m..];
    if i < |p| && p[i] == '*' {
      assert t[k + m..] == t[j..][k + m - j..];
      StarAbsorbs(p[i..], t[j..], k + m - j);
    }
  }

  // A pattern that starts with a star matches with anything put in front.
  lemma StarAbsorbs(p: string, t: string, d: nat)
    requires p != "" && p[0] == '*' && d <= |t| && Matches(p, t[d..])
    ensures Matches(p, t)
  {
    hide Matches;
    var e := StarTakes(p, t[d..]);
    assert t[d..][e..] == t[d + e..];
    StarMatches(p, t, d + e);
  }

  // What a star takes in a match.
  lemma StarTakes(p: string, t: string) returns (e: nat)
    requires p != "" && p[0] == '*' && Matches(p, t)
    ensures e <= |t| && Matches(p[1..], t[e..])
  {
    e :| 0 <= e <= |t| && Matches(p[1..], t[e..]);
  }

  lemma NoMatchHere(p: string, t: string, i: nat, j: nat)
    requires i <= |p| && j < |t| && (i < |p| ==> p[i] != '*' && !MatchesChar(p[i], t[j]))
    ensures !Matches(p[i..], t[j..])
  {
  }

  lemma {:induction false} SearchIsExact(p: string, t: string, i: nat, j: nat, mark: Mark)
    requires Placed(p, t, i, j, mark) && InStep(p, i, j, mark) && '*' !in t
    ensures Search(p, t, i, j, mark) <==> Open(p, t, i, j, mark)
    decreases |t| - Backtracked(mark), |t| - j, |p| - i
  {
    hide Matches;
    if j == |t| {
      assert t[j..] == "";
      AllStarsMatchEmpty(p[i..]);
      if LongerStar(p, t, mark) {
        LongerStarGainsNothing(p, t, i, j, mark);
      }
    } else if i < |p| && MatchesChar(p[i], t[j]) {
      assert t[j] in t;
      assert mark.Star? ==> p[mark.pat + 1..i + 1] == p[mark.pat + 1..i] + [p[i]];
      SearchIsExact(p, t, i + 1, j + 1, mark);
      OneCharacter(p, t, i, j);
    } else if i < |p| && p[i] == '*' {
      SearchIsExact(p, t, i + 1, j, Star(i, j));
      StarSplits(p, t, i, j);
      if LongerStar(p, t, mark) {
        LongerStarGainsNothing(p, t, i, j, mark);
      }
    } else {
      NoMatchHere(p, t, i, j);
      if mark.Star? {
        SearchIsExact(p, t, mark.pat + 1, mark.tst + 1, Star(mark.pat, mark.tst + 1));
        NextString(p, t, mark);
      }
    }
  }

  // The next longer string of the last star.
  lemma NextString(p: string, t: string, mark: Mark)
    requires mark.Star? && mark.pat < |p| && mark.tst < |t|
    ensures LongerStar(p, t, mark) <==>
              Matches(p[mark.pat + 1..], t[mark.tst + 1..]) || LongerStar(p, t, Star(mark.pat, mark.tst + 1))
  {
    if Matches(p[mark.pat + 1..], t[mark.tst + 1..]) {
      assert mark.tst < mark.tst + 1 <= |t|;
    }
  }

  // What the loop returns, from the start.
  lemma SearchDecides(p: string, t: string)
    ensures Search(p, t, 0, 0, Unset) ==> Matches(p, t)
    ensures '*' !in t ==> (Search(p, t, 0, 0, Unset) <==> Matches(p, t))
  {
    assert p[0..] == p && t[0..] == t;
    SearchIsSound(p, t, 0, 0, Unset);
    if '*' !in t {
      SearchIsExact(p, t, 0, 0, Unset);
    }
  }

  // ---------- names with a star ----------

  function Questions(n: nat): string {
    seq(n, _ => '?')
  }

  lemma {:induction false} QuestionsMatch(t: string)
    ensures Matches(Questions(|t|), t)
  {
    if t != "" {
      QuestionsMatch(t[1..]);
      assert Questions(|t|)[1..] == Questions(|t[1..]|);
    }
  }

  lemma {:induction false} QuestionsFirst(n: nat, q: string, t: string)
    requires n <= |t| && Matches(q, t[n..])
    ensures Matches(Questions(n) + q, t)
  {
    if n == 0 {
      assert Questions(0) + q == q && t[0..] == t;
    } else {
      assert t[1..][n - 1..] == t[n..];
      QuestionsFirst(n - 1, q, t[1..]);
      assert (Questions(n) + q)[1..] == Questions(n - 1) + q;
    }
  }

  // A pattern one longer than the name, matching it character by character, is rejected at its end.
  lemma {:induction false} LiteralRunRejects(p: string, t: string, j: nat)
    requires |p| == |t| + 1 && p[|t|] == '?' && j <= |t|
    requires forall k :: 0 <= k < |t| ==> MatchesChar(p[k], t[k])
    ensures !Search(p, t, j, j, Unset)
    decreases |t| - j
  {
    if j < |t| {
      LiteralRunRejects(p, t, j + 1);
    } else {
      assert p[j..] == "?";
      assert p[j..][0] != '*';
    }
  }

  // For a name that holds a star there is a pattern on which the code is wrong.
  lemma StarInNameMisleads(t: string, i: nat)
    requires i < |t| && t[i] == '*'
    ensures var p := Questions(i) + "*" + Questions(|t| - i);
            Matches(p, t) && !Search(p, t, 0, 0, Unset)
  {
    hide Matches, Search;
    var q := "*" + Questions(|t| - i);
    var p := Questions(i) + "*" + Questions(|t| - i);
    assert p == Questions(i) + q;
    QuestionsMatch(t[i..]);
    assert q[1..] == Questions(|t[i..]|) && t[i..][0..] == t[i..];
    StarMatches(q, t[i..], 0);
    QuestionsFirst(i, q, t);
    LiteralRunRejects(p, t, 0);
  }

  // Exactly which names are safe: the code agrees with the language on all patterns
  // if and only if the name holds no star.
  lemma ExactIffNoStar(t: string)
    ensures (forall p: string :: Search(p, t, 0, 0, Unset) <==> Matches(p, t)) <==> '*' !in t
  {
    if '*' in t {
      var i :| 0 <= i < |t| && t[i] == '*';
      StarInNameMisleads(t, i);
    } else {
      forall p: string
        ensures Search(p, t, 0, 0, Unset) <==> Matches(p, t)
      {
        SearchDecides(p, t);
      }
    }
  }
}
