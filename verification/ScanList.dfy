/**
 * The network list of the WiFiManager configuration page: an exchange sort by signal strength over an array of
 * scan indices, in-place marking of repeated names, and the minimum-quality filter.
 */
module ScanList {

  // SSID and RSSI of one scanned network
  datatype Network = Network(ssid: string, rssi: int)
  // one row of the page
  datatype Row = Row(ssid: string, quality: int)

  // The index that marks a repeated name.
  const DUPLICATE := -1
  // The minimum quality that switches the filter off.
  const NO_MINIMUM := -1

  // ---------- signal quality ----------

  function Quality(rssi: int): (q: int)
    ensures 0 <= q <= 100
    ensures (q == 0 <==> rssi <= -100) && (q == 100 <==> rssi >= -50)
  {
    if rssi <= -100 then 0 else if rssi >= -50 then 100 else 2 * (rssi + 100)
  }

  predicate Passes(minimum: int, rssi: int) {
    minimum == NO_MINIMUM || minimum < Quality(rssi)
  }

  // Two percent for each dBm in between.
  lemma QualityIsLinear(rssi: int)
    requires -100 <= rssi < -50
    ensures Quality(rssi + 1) == Quality(rssi) + 2
  {
  }

  // The filter in dBm: above a minimum below 100 percent by two percent for each dBm over -100.
  lemma PassesIff(minimum: int, rssi: int)
    ensures Passes(minimum, rssi) <==> minimum < 0 || (minimum < 100 && 2 * (rssi + 100) > minimum)
  {
  }

  lemma StrongerPassesToo(minimum: int, weak: int, strong: int)
    requires weak <= strong && Passes(minimum, weak)
    ensures Quality(weak) <= Quality(strong) && Passes(minimum, strong)
  {
  }

  // ---------- index lists ----------

  ghost predicate Indices(nets: seq<Network>, s: seq<int>) {
    forall i :: 0 <= i < |s| ==> 0 <= s[i] < |nets|
  }

  // Every scan index, once.
  ghost predicate Permutation(nets: seq<Network>, s: seq<int>) {
    && |s| == |nets| && Indices(nets, s)
    && (forall i, j :: 0 <= i < j < |s| ==> s[i] != s[j])
    && (forall k :: 0 <= k < |nets| ==> k in s)
  }

  ghost predicate Descending(nets: seq<Network>, s: seq<int>)
    requires Indices(nets, s)
  {
    forall i, j :: 0 <= i < j < |s| ==> nets[s[i]].rssi >= nets[s[j]].rssi
  }

  // Every scanned name once, at its greatest signal strength, strongest first.
  ghost predicate BestOncePerName(nets: seq<Network>, s: seq<int>) {
    && Indices(nets, s) && Descending(nets, s)
    && (forall i, j :: 0 <= i < j < |s| ==> nets[s[i]].ssid != nets[s[j]].ssid)
    && (forall k :: 0 <= k < |nets| ==> Covered(nets, s, nets[k]))
  }

  ghost predicate Covered(nets: seq<Network>, s: seq<int>, net: Network)
    requires Indices(nets, s)
  {
    exists i :: 0 <= i < |s| && nets[s[i]].ssid == net.ssid && nets[s[i]].rssi >= net.rssi
  }

  lemma ListedIsStrongest(nets: seq<Network>, s: seq<int>, i: nat, k: nat)
    requires BestOncePerName(nets, s) && i < |s| && k < |nets| && nets[s[i]].ssid == nets[k].ssid
    ensures nets[s[i]].rssi >= nets[k].rssi
  {
    assert Covered(nets, s, nets[k]);
    var j :| 0 <= j < |s| && nets[s[j]].ssid == nets[k].ssid && nets[s[j]].rssi >= nets[k].rssi;
    assert !(i < j) && !(j < i);
  }

  // ---------- sorting ----------

  function Swapped(s: seq<int>, i: nat, j: nat): seq<int>
    requires i < |s| && j < |s|
  {
    s[i := s[j]][j := s[i]]
  }

  lemma SwapKeepsPermutation(nets: seq<Network>, s: seq<int>, i: nat, j: nat)
    requires Permutation(nets, s) && i < j < |s|
    ensures Permutation(nets, Swapped(s, i, j))
  {
    var t := Swapped(s, i, j);
    forall k | 0 <= k < |nets|
      ensures k in t
    {
      assert k in s;
      var p :| 0 <= p < |s| && s[p] == k;
      assert t[if p == i then j else if p == j then i else p] == k;
    }
  }

  // Positions before i are final: nothing after them is stronger.
  ghost predicate SettledTo(nets: seq<Network>, s: seq<int>, i: nat)
    requires Indices(nets, s)
  {
    forall p, q :: 0 <= p < q < |s| && p < i ==> nets[s[p]].rssi >= nets[s[q]].rssi
  }

  // Position i is the strongest of those from i up to j.
  ghost predicate LeadsTo(nets: seq<Network>, s: seq<int>, i: nat, j: nat)
    requires Indices(nets, s) && j <= |s|
  {
    forall q :: i < q < j ==> nets[s[i]].rssi >= nets[s[q]].rssi
  }

  lemma SwapKeepsOrder(nets: seq<Network>, s: seq<int>, i: nat, j: nat)
    requires Indices(nets, s) && i < j < |s|
    requires SettledTo(nets, s, i) && LeadsTo(nets, s, i, j) && nets[s[j]].rssi > nets[s[i]].rssi
    ensures var t := Swapped(s, i, j); Indices(nets, t) && SettledTo(nets, t, i) && LeadsTo(nets, t, i, j + 1)
  {
  }

  method Sort(nets: seq<Network>, indices: array<int>)
    requires Permutation(nets, indices[..])
    modifies indices
    ensures Permutation(nets, indices[..]) && Descending(nets, indices[..])
  {
    var n := indices.Length;
    var i := 0;
    while i < n
      invariant i <= n && Permutation(nets, indices[..]) && SettledTo(nets, indices[..], i)
    {
      var j := i + 1;
      while j < n
        invariant i < j <= n && Permutation(nets, indices[..])
        invariant SettledTo(nets, indices[..], i) && LeadsTo(nets, indices[..], i, j)
      {
        if nets[indices[j]].rssi > nets[indices[i]].rssi {
          SwapKeepsPermutation(nets, indices[..], i, j);
          SwapKeepsOrder(nets, indices[..], i, j);
          ghost var t := Swapped(indices[..], i, j);
          indices[i], indices[j] := indices[j], indices[i];
          assert indices[..] == t;
        }
        j := j + 1;
      }
      i := i + 1;
    }
  }

  // ---------- marking repeated names ----------

  // Position k holds the first of its name among the positions before limit and itself.
  ghost predicate First(nets: seq<Network>, s: seq<int>, limit: nat, k: nat)
    requires Indices(nets, s) && k < |s|
  {
    forall p :: 0 <= p < limit && p < k ==> nets[s[p]].ssid != nets[s[k]].ssid
  }

  // d is s with every repeat of a name seen before limit marked.
  ghost predicate MarkedTo(nets: seq<Network>, s: seq<int>, d: seq<int>, limit: nat)
    requires Indices(nets, s)
  {
    && |d| == |s|
    && forall k :: 0 <= k < |s| ==> d[k] == if First(nets, s, limit, k) then s[k] else DUPLICATE
  }

  // WiFi.SSID, with whatever it answers for an index outside the scan.
  function SSID(nets: seq<Network>, outside: string, i: int): string {
    if 0 <= i < |nets| then nets[i].ssid else outside
  }

  // The result does not depend on what WiFi.SSID answers for a marked entry.
  method MarkDuplicates(nets: seq<Network>, outside: string, indices: array<int>)
    requires Indices(nets, indices[..])
    modifies indices
    ensures MarkedTo(nets, old(indices[..]), indices[..], indices.Length)
  {
    var n := indices.Length;
    ghost var s := indices[..];
    var i := 0;
    while i < n
      invariant i <= n && MarkedTo(nets, s, indices[..], i)
    {
      if indices[i] != DUPLICATE {
        MarkName(nets, outside, indices, i, s);
      } else {
        RepeatAddsNothing(nets, s, indices[..], i);
      }
      i := i + 1;
    }
  }

  // The inner loop: marks the later entries of the name at position i.
  method MarkName(nets: seq<Network>, outside: string, indices: array<int>, i: nat, ghost s: seq<int>)
    requires Indices(nets, s) && i < indices.Length && indices[i] != DUPLICATE
    requires MarkedTo(nets, s, indices[..], i)
    modifies indices
    ensures MarkedTo(nets, s, indices[..], i + 1)
  {
    var name := SSID(nets, outside, indices[i]);
    assert indices[i] == indices[..][i] == s[i] && name == nets[s[i]].ssid;
    ghost var d := indices[..];
    assert forall k :: 0 <= k < |s| ==> d[k] == s[k] || d[k] == DUPLICATE;
    hide MarkedTo, First;
    var j := i + 1;
    while j < indices.Length
      invariant i < j <= indices.Length
      invariant forall k :: 0 <= k < |s| && !(i < k < j) ==> indices[k] == d[k]
      invariant forall k :: i < k < j ==> indices[k] == if nets[s[k]].ssid == name then DUPLICATE else d[k]
    {
      if name == SSID(nets, outside, indices[j]) {
        indices[j] := DUPLICATE;
      }
      j := j + 1;
    }
    OneNameMarked(nets, s, d, indices[..], i);
  }

  lemma OneNameMarked(nets: seq<Network>, s: seq<int>, d: seq<int>, e: seq<int>, i: nat)
    requires Indices(nets, s) && MarkedTo(nets, s, d, i) && i < |s| && |e| == |s|
    requires forall k :: 0 <= k <= i ==> e[k] == d[k]
    requires forall k :: i < k < |s| ==> e[k] == if nets[s[k]].ssid == nets[s[i]].ssid then DUPLICATE else d[k]
    ensures MarkedTo(nets, s, e, i + 1)
  {
    hide First;
    forall k | 0 <= k < |s|
      ensures e[k] == if First(nets, s, i + 1, k) then s[k] else DUPLICATE
    {
      FirstExtends(nets, s, i, k);
    }
  }

  lemma FirstExtends(nets: seq<Network>, s: seq<int>, i: nat, k: nat)
    requires Indices(nets, s) && i < |s| && k < |s|
    ensures First(nets, s, i + 1, k) <==> First(nets, s, i, k) && (i < k ==> nets[s[i]].ssid != nets[s[k]].ssid)
  {
  }

  lemma RepeatAddsNothing(nets: seq<Network>, s: seq<int>, d: seq<int>, i: nat)
    requires Indices(nets, s) && i < |s| && MarkedTo(nets, s, d, i) && d[i] == DUPLICATE
    ensures MarkedTo(nets, s, d, i + 1)
  {
    assert !First(nets, s, i, i);
    var p :| 0 <= p < i && nets[s[p]].ssid == nets[s[i]].ssid;
    forall k | 0 <= k < |s|
      ensures First(nets, s, i + 1, k) <==> First(nets, s, i, k)
    {
      FirstExtends(nets, s, i, k);
      if i < k && nets[s[i]].ssid == nets[s[k]].ssid {
        assert nets[s[p]].ssid == nets[s[k]].ssid;
      }
    }
  }

  // ---------- what is shown ----------

  // The entries the display loop does not skip.
  function Unmarked(d: seq<int>): seq<int> {
    if d == [] then []
    else Unmarked(d[..|d| - 1]) + if d[|d| - 1] == DUPLICATE then [] else [d[|d| - 1]]
  }

  lemma UnmarkedNext(d: seq<int>, i: nat)
    requires i < |d|
    ensures Unmarked(d[..i + 1]) == if d[i] == DUPLICATE then Unmarked(d[..i]) else Unmarked(d[..i]) + [d[i]]
  {
    assert d[..i + 1][..i] == d[..i];
  }

  lemma {:induction false} UnmarkedPermutation(nets: seq<Network>, s: seq<int>)
    requires Indices(nets, s)
    ensures Unmarked(s) == s
  {
    if s != [] {
      UnmarkedPermutation(nets, s[..|s| - 1]);
    }
  }

  // u picks from the first k positions of s: different names, in order, covering every name there.
  ghost predicate Chosen(nets: seq<Network>, s: seq<int>, u: seq<int>, k: nat)
    requires Indices(nets, s) && k <= |s|
  {
    && (forall x <- u :: x in s[..k]) && Indices(nets, u) && Descending(nets, u)
    && (forall i, j :: 0 <= i < j < |u| ==> nets[u[i]].ssid != nets[u[j]].ssid)
    && (forall p :: 0 <= p < k ==> Covered(nets, u, nets[s[p]]))
  }

  lemma {:induction false} UnmarkedIsChosen(nets: seq<Network>, s: seq<int>, d: seq<int>, k: nat)
    requires Indices(nets, s) && Descending(nets, s) && MarkedTo(nets, s, d, |s|) && k <= |s|
    ensures Chosen(nets, s, Unmarked(d[..k]), k)
  {
    hide Chosen, Descending, Unmarked, First, MarkedTo;
    if k == 0 {
      NothingChosen(nets, s, d);
    } else {
      UnmarkedIsChosen(nets, s, d, k - 1);
      MarkedAt(nets, s, d, k - 1);
      UnmarkedNext(d, k - 1);
      if First(nets, s, |s|, k - 1) {
        NewNameAdded(nets, s, Unmarked(d[..k - 1]), k - 1);
      } else {
        RepeatIsCovered(nets, s, Unmarked(d[..k - 1]), k - 1);
      }
    }
  }

  lemma NothingChosen(nets: seq<Network>, s: seq<int>, d: seq<int>)
    requires Indices(nets, s) && Descending(nets, s) && MarkedTo(nets, s, d, |s|)
    ensures |d| == |s| && Chosen(nets, s, Unmarked(d[..0]), 0)
  {
  }

  lemma MarkedAt(nets: seq<Network>, s: seq<int>, d: seq<int>, k: nat)
    requires Indices(nets, s) && MarkedTo(nets, s, d, |s|) && k < |s|
    ensures |d| == |s| && d[k] == if First(nets, s, |s|, k) then s[k] else DUPLICATE
  {
  }

  lemma RepeatIsCovered(nets: seq<Network>, s: seq<int>, u: seq<int>, k: nat)
    requires Indices(nets, s) && Descending(nets, s) && k < |s| && !First(nets, s, |s|, k) && Chosen(nets, s, u, k)
    ensures Chosen(nets, s, u, k + 1)
  {
    var p :| 0 <= p < k && nets[s[p]].ssid == nets[s[k]].ssid;
    assert Covered(nets, u, nets[s[p]]);
    var i :| 0 <= i < |u| && nets[u[i]].ssid == nets[s[p]].ssid && nets[u[i]].rssi >= nets[s[p]].rssi;
    assert Covered(nets, u, nets[s[k]]);
    PrefixGrows(s, u, k);
  }

  lemma PrefixGrows(s: seq<int>, u: seq<int>, k: nat)
    requires k < |s| && forall x <- u :: x in s[..k]
    ensures forall x <- u :: x in s[..k + 1]
  {
    assert s[..k + 1] == s[..k] + [s[k]];
  }

  lemma NewNameAdded(nets: seq<Network>, s: seq<int>, u: seq<int>, k: nat)
    requires Indices(nets, s) && Descending(nets, s) && k < |s| && First(nets, s, |s|, k) && Chosen(nets, s, u, k)
    ensures Chosen(nets, s, u + [s[k]], k + 1)
  {
    var v := u + [s[k]];
    forall i | 0 <= i < |u|
      ensures nets[u[i]].rssi >= nets[s[k]].rssi && nets[u[i]].ssid != nets[s[k]].ssid
    {
      assert u[i] in s[..k];
      var p :| 0 <= p < k && s[p] == u[i];
    }
    forall p | 0 <= p <= k
      ensures Covered(nets, v, nets[s[p]])
    {
      if p < k {
        assert Covered(nets, u, nets[s[p]]);
        var i :| 0 <= i < |u| && nets[u[i]].ssid == nets[s[p]].ssid && nets[u[i]].rssi >= nets[s[p]].rssi;
        assert v[i] == u[i];
      } else {
        assert v[|u|] == s[k];
      }
    }
    PrefixGrows(s, u, k);
    assert s[..k + 1][k] == s[k];
  }

  // Sorting before marking is what makes the survivor of each name its strongest.
  lemma SurvivorsAreBest(nets: seq<Network>, s: seq<int>, d: seq<int>)
    requires Permutation(nets, s) && Descending(nets, s) && MarkedTo(nets, s, d, |s|)
    ensures BestOncePerName(nets, Unmarked(d))
  {
    UnmarkedIsChosen(nets, s, d, |s|);
    assert d[..|s|] == d;
    forall k | 0 <= k < |nets|
      ensures Covered(nets, Unmarked(d), nets[k])
    {
      assert k in s;
      var p :| 0 <= p < |s| && s[p] == k;
      assert Covered(nets, Unmarked(d), nets[s[p]]);
    }
  }

  // The rows of a list of indices that pass the filter, in order.
  function Rows(nets: seq<Network>, minimum: int, s: seq<int>): seq<Row>
    requires Indices(nets, s)
  {
    if s == [] then []
    else
      var net := nets[s[|s| - 1]];
      Rows(nets, minimum, s[..|s| - 1])
      + if Passes(minimum, net.rssi) then [Row(net.ssid, Quality(net.rssi))] else []
  }

  // The filter shows a prefix of a descending list, and cuts only networks that do not pass.
  lemma {:induction false} FilterShowsPrefix(nets: seq<Network>, minimum: int, s: seq<int>)
    requires Indices(nets, s) && Descending(nets, s)
    ensures var rows := Rows(nets, minimum, s);
            && |rows| <= |s|
            && (forall i :: 0 <= i < |s| ==> (i < |rows| <==> Passes(minimum, nets[s[i]].rssi)))
            && (forall i :: 0 <= i < |rows| ==> rows[i] == Row(nets[s[i]].ssid, Quality(nets[s[i]].rssi)))
  {
    if s != [] {
      var t := s[..|s| - 1];
      FilterShowsPrefix(nets, minimum, t);
      var last := nets[s[|s| - 1]].rssi;
      if Passes(minimum, last) {
        forall i | 0 <= i < |t|
          ensures Passes(minimum, nets[t[i]].rssi)
        {
          StrongerPassesToo(minimum, last, nets[t[i]].rssi);
        }
      }
    }
  }

  ghost predicate Listing(nets: seq<Network>, removeDuplicates: bool, s: seq<int>) {
    if removeDuplicates then BestOncePerName(nets, s) else Permutation(nets, s) && Descending(nets, s)
  }

  // The scan part of handleWifi: the rows of a descending list of all networks, or of the best of every name.
  method ShowNetworks(nets: seq<Network>, outside: string, removeDuplicates: bool, minimum: int)
    returns (rows: seq<Row>)
    ensures exists listing :: Listing(nets, removeDuplicates, listing) && rows == Rows(nets, minimum, listing)
  {
    var indices := new int[|nets|](i => i);
    IdentityPermutes(nets, indices[..]);
    Sort(nets, indices);
    ghost var s := indices[..];
    UnmarkedPermutation(nets, s);
    if removeDuplicates {
      MarkDuplicates(nets, outside, indices);
      SurvivorsAreBest(nets, s, indices[..]);
    }
    assert Listing(nets, removeDuplicates, Unmarked(indices[..]));
    rows := Display(nets, minimum, indices);
  }

  lemma IdentityPermutes(nets: seq<Network>, s: seq<int>)
    requires |s| == |nets| && forall i :: 0 <= i < |s| ==> s[i] == i
    ensures Permutation(nets, s)
  {
    forall k | 0 <= k < |nets|
      ensures k in s
    {
      assert s[k] == k;
    }
  }

  method Display(nets: seq<Network>, minimum: int, indices: array<int>) returns (rows: seq<Row>)
    requires Indices(nets, Unmarked(indices[..]))
    ensures rows == Rows(nets, minimum, Unmarked(indices[..]))
  {
    rows := [];
    var i := 0;
    while i < indices.Length
      invariant i <= indices.Length
      invariant Indices(nets, Unmarked(indices[..i])) && rows == Rows(nets, minimum, Unmarked(indices[..i]))
    {
      UnmarkedNext(indices[..], i);
      OneMore(nets, minimum, indices[..], i);
      if indices[i] != DUPLICATE {
        var net := nets[indices[i]];
        var quality := Quality(net.rssi);
        if minimum == NO_MINIMUM || minimum < quality {
          rows := rows + [Row(net.ssid, quality)];
        }
      }
      i := i + 1;
    }
    assert indices[..i] == indices[..];
  }

  lemma OneMore(nets: seq<Network>, minimum: int, d: seq<int>, i: nat)
    requires i < |d| && Indices(nets, Unmarked(d)) && Indices(nets, Unmarked(d[..i]))
    ensures d[i] != DUPLICATE ==> 0 <= d[i] < |nets|
    ensures Indices(nets, Unmarked(d[..i + 1]))
    ensures d[i] != DUPLICATE ==>
              Rows(nets, minimum, Unmarked(d[..i + 1]))
              == Rows(nets, minimum, Unmarked(d[..i]))
                 + if Passes(minimum, nets[d[i]].rssi) then [Row(nets[d[i]].ssid, Quality(nets[d[i]].rssi))] else []
  {
    UnmarkedNext(d, i);
    if d[i] != DUPLICATE {
      UnmarkedHas(d, i);
      var u := Unmarked(d[..i]);
      assert (u + [d[i]])[..|u|] == u;
    }
  }

  lemma {:induction false} UnmarkedHas(d: seq<int>, i: nat)
    requires i < |d| && d[i] != DUPLICATE
    ensures d[i] in Unmarked(d)
  {
    if i < |d| - 1 {
      UnmarkedHas(d[..|d| - 1], i);
    }
  }
}
