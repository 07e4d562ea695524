/** `parse_html_to_connections` from the parsed tree onwards, and the
    station guard of `grab_connection`. */
module Extraction {
  import opened Wrappers
  import opened Html
  import opened PyStr
  import opened Connections

  /** Class of the element holding the journey entries. */
  const ContainerClass := "connection-list"
  /** Substring every journey entry's `id` carries. */
  const EntryMarker := "connectionBox"

  /** `element.get("class", "") == "connection-list"`. */
  predicate IsContainer(e: Element) {
    GetOr(e, "class", "") == ContainerClass
  }

  /** `"connectionBox" in child.get("id", "")`. */
  predicate IsEntry(e: Element) {
    Contains(GetOr(e, "id", ""), EntryMarker)
  }

  /** An element without an `id` is never an entry. */
  lemma MissingIdIsNoEntry(e: Element)
    requires "id" !in e.attrs
    ensures !IsEntry(e)
  {
    EmptyContainsNothing(EntryMarker);
  }

  // ---------------------------------------------------------------------
  // Finding the container.

  /** The position of the first container at or after `k` in `es`, or
      `None` when there is none there. */
  function FirstContainer(es: seq<Element>, k: nat): (r: Option<nat>)
    requires k <= |es|
    ensures r.None? <==> forall j :: k <= j < |es| ==> !IsContainer(es[j])
    ensures r.Some? ==> k <= r.value < |es| && IsContainer(es[r.value])
    ensures r.Some? ==> forall j :: k <= j < r.value ==> !IsContainer(es[j])
    decreases |es| - k
  {
    if k == |es| then None
    else if IsContainer(es[k]) then Some(k)
    else FirstContainer(es, k + 1)
  }

  /** The search from `i` stops at `k` when `k` is the first container at
      or after `i`. */
  lemma {:induction false} FirstContainerIs(es: seq<Element>, i: nat, k: nat)
    requires i <= k < |es| && IsContainer(es[k])
    requires forall j :: i <= j < k ==> !IsContainer(es[j])
    ensures FirstContainer(es, i) == Some(k)
    decreases k - i
  {
    if i < k {
      assert !IsContainer(es[i]);
      FirstContainerIs(es, i + 1, k);
    }
  }

  // ---------------------------------------------------------------------
  // Selecting the entries.

  /** The elements among positions `k..` of `cs` that `keep` accepts, in
      order. The test is a parameter, so that the filter's proofs never
      look inside it. */
  function Filter(cs: seq<Element>, k: nat, keep: Element -> bool): (r: seq<Element>)
    requires k <= |cs|
    ensures |r| <= |cs| - k
    decreases |cs| - k
  {
    if k == |cs| then []
    else (if keep(cs[k]) then [cs[k]] else []) + Filter(cs, k + 1, keep)
  }

  /** The positions among `k..` that `keep` accepts, in increasing order. */
  function Positions(cs: seq<Element>, k: nat, keep: Element -> bool): (idx: seq<nat>)
    requires k <= |cs|
    ensures forall t :: 0 <= t < |idx| ==> k <= idx[t] < |cs| && keep(cs[idx[t]])
    decreases |cs| - k
  {
    if k == |cs| then []
    else if keep(cs[k]) then [k] + Positions(cs, k + 1, keep)
    else Positions(cs, k + 1, keep)
  }

  lemma {:induction false} FilterInOrder(cs: seq<Element>, k: nat, keep: Element -> bool)
    requires k <= |cs|
    ensures var idx := Positions(cs, k, keep);
      && |Filter(cs, k, keep)| == |idx|
      && forall t :: 0 <= t < |idx| ==> Filter(cs, k, keep)[t] == cs[idx[t]]
    decreases |cs| - k
  {
    if k < |cs| {
      FilterInOrder(cs, k + 1, keep);
      var rest := Filter(cs, k + 1, keep);
      var idx := Positions(cs, k + 1, keep);
      var r := Filter(cs, k, keep);
      var p := Positions(cs, k, keep);
      if keep(cs[k]) {
        assert r == [cs[k]] + rest;
        assert p == [k] + idx;
        forall t | 0 <= t < |p| ensures r[t] == cs[p[t]] {
          if t > 0 {
            assert r[t] == rest[t - 1];
            assert p[t] == idx[t - 1];
          }
        }
      } else {
        assert r == [] + rest;
        assert p == idx;
      }
    }
  }

  /** The positions are strictly increasing. */
  lemma {:induction false} PositionsIncreasing(cs: seq<Element>, k: nat, keep: Element -> bool)
    requires k <= |cs|
    ensures forall s, t :: 0 <= s < t < |Positions(cs, k, keep)| ==> Positions(cs, k, keep)[s] < Positions(cs, k, keep)[t]
    decreases |cs| - k
  {
    if k < |cs| {
      PositionsIncreasing(cs, k + 1, keep);
      var idx := Positions(cs, k + 1, keep);
      if keep(cs[k]) {
        var p := [k] + idx;
        assert Positions(cs, k, keep) == p;
        forall s, t | 0 <= s < t < |p| ensures p[s] < p[t] {
          assert p[t] == idx[t - 1] && k + 1 <= idx[t - 1];
          if s > 0 {
            assert p[s] == idx[s - 1];
            assert idx[s - 1] < idx[t - 1];
          } else {
            assert p[s] == k;
          }
        }
      } else {
        assert Positions(cs, k, keep) == idx;
      }
    }
  }

  /** No accepted position is missed. */
  lemma {:induction false} PositionsComplete(cs: seq<Element>, k: nat, keep: Element -> bool, j: nat)
    requires k <= j < |cs| && keep(cs[j])
    ensures j in Positions(cs, k, keep)
    decreases |cs| - k
  {
    if k < j {
      PositionsComplete(cs, k + 1, keep, j);
      var idx := Positions(cs, k + 1, keep);
      if keep(cs[k]) {
        assert Positions(cs, k, keep) == [k] + idx;
      }
    }
  }

  /** The children the inner loop builds a record for, in order. */
  function Entries(cs: seq<Element>): seq<Element> {
    Filter(cs, 0, IsEntry)
  }

  /** The positions of those children. */
  function EntryPositions(cs: seq<Element>): seq<nat> {
    Positions(cs, 0, IsEntry)
  }

  /** Order and count: the selected entries are exactly the children at the
      entry positions, which are increasing and are all the positions of
      children whose `id` carries the marker. */
  lemma EntriesInOrder(cs: seq<Element>)
    ensures var idx := EntryPositions(cs);
      && |Entries(cs)| == |idx|
      && (forall t :: 0 <= t < |idx| ==> Entries(cs)[t] == cs[idx[t]] && IsEntry(cs[idx[t]]))
      && (forall s, t :: 0 <= s < t < |idx| ==> idx[s] < idx[t])
      && (forall j :: 0 <= j < |cs| && IsEntry(cs[j]) ==> j in idx)
  {
    FilterInOrder(cs, 0, IsEntry);
    PositionsIncreasing(cs, 0, IsEntry);
    forall j | 0 <= j < |cs| && IsEntry(cs[j]) ensures j in EntryPositions(cs) {
      PositionsComplete(cs, 0, IsEntry, j);
    }
  }

  /** Exactly the children whose `id` carries the marker are selected. */
  lemma EntriesMembership(cs: seq<Element>)
    ensures forall x :: x in Entries(cs) <==> x in cs && IsEntry(x)
  {
    EntriesInOrder(cs);
    var idx := EntryPositions(cs);
    forall x | x in cs && IsEntry(x) ensures x in Entries(cs) {
      var j :| 0 <= j < |cs| && cs[j] == x;
      var t :| 0 <= t < |idx| && idx[t] == j;
      assert Entries(cs)[t] == x;
    }
  }

  // ---------------------------------------------------------------------
  // Building the records.

  /** `[f(e) for e in es]` where `f` may raise: one result per element, in
      order, or the error of the first element it fails on. */
  function MapAll<T>(es: seq<Element>, f: Element -> Result<T, Error>): (r: Result<seq<T>, Error>)
    ensures r.Success? <==> forall i :: 0 <= i < |es| ==> f(es[i]).Success?
    ensures r.Success? ==> |r.value| == |es|
    ensures r.Success? ==> forall i :: 0 <= i < |es| ==> r.value[i] == f(es[i]).value
    ensures r.Failure? ==>
      exists i :: 0 <= i < |es| && f(es[i]) == Failure(r.error)
        && forall j :: 0 <= j < i ==> f(es[j]).Success?
  {
    if es == [] then Success([])
    else
      var x :- f(es[0]);
      var rest := MapAll(es[1..], f);
      if rest.Failure? then
        var i :| 0 <= i < |es[1..]| && f(es[1..][i]) == Failure(rest.error)
          && forall j :: 0 <= j < i ==> f(es[1..][j]).Success?;
        FirstFailureShift(es, i, f);
        Failure(rest.error)
      else
        TailShift(es);
        Success([x] + rest.value)
  }

  lemma FirstFailureShift<T>(es: seq<Element>, i: nat, f: Element -> Result<T, Error>)
    requires 0 < |es| && i < |es| - 1
    requires forall j :: 0 <= j < i ==> f(es[1..][j]).Success?
    ensures f(es[i + 1]) == f(es[1..][i])
    ensures forall j :: 1 <= j < i + 1 ==> f(es[j]).Success?
  {
    TailShift(es);
  }

  lemma TailShift(es: seq<Element>)
    requires 0 < |es|
    ensures forall j :: 1 <= j < |es| ==> es[j] == es[1..][j - 1]
  {
  }

  /** `[Connection(e) for e in es]`: one record per entry, in order, or
      the error of the first entry that fails to extract. */
  function ExtractAll(es: seq<Element>): (r: Result<seq<Connection>, Error>)
    ensures r.Success? <==> forall i :: 0 <= i < |es| ==> ExtractConnection(es[i]).Success?
    ensures r.Success? ==> |r.value| == |es|
    ensures r.Success? ==> forall i :: 0 <= i < |es| ==> r.value[i] == ExtractConnection(es[i]).value
    ensures r.Failure? ==>
      exists i :: 0 <= i < |es| && ExtractConnection(es[i]) == Failure(r.error)
        && forall j :: 0 <= j < i ==> ExtractConnection(es[j]).Success?
  {
    MapAll(es, ExtractConnection)
  }

  /** The first container in document order, if any. */
  function Container(root: Element): (r: Option<Element>)
    ensures r.None? <==> forall j :: 0 <= j < |PreOrder(root)| ==> !IsContainer(PreOrder(root)[j])
    ensures r.Some? ==> IsContainer(r.value)
    ensures r.Some? ==> exists k :: (0 <= k < |PreOrder(root)| && PreOrder(root)[k] == r.value &&
      forall j :: 0 <= j < k ==> !IsContainer(PreOrder(root)[j]))
  {
    match FirstContainer(PreOrder(root), 0)
    case None => None
    case Some(k) =>
      assert k < |PreOrder(root)| && IsContainer(PreOrder(root)[k]);
      Some(PreOrder(root)[k])
  }

  /** `parse_html_to_connections` on an already parsed tree: without a
      container the result is the empty list, not an error; otherwise one
      record per entry child of the first container, in order, or the
      error of the first entry that fails. */
  function ParseConnections(root: Element): (r: Result<seq<Connection>, Error>)
    ensures Container(root).None? ==> r == Success([])
    ensures r.Success? ==> forall c :: c in r.value ==> c.delay.Some? && Trimmed(c.delay.value)
  {
    match Container(root)
    case None => Success([])
    case Some(c) => ExtractAll(Entries(c.children))
  }

  /** Count, order and failure of the whole call, stated entry by entry. */
  lemma ParseConnectionsMeaning(root: Element)
    requires Container(root).Some?
    ensures var es := Entries(Container(root).value.children);
      ParseConnections(root).Success? <==> forall i :: 0 <= i < |es| ==> ExtractConnection(es[i]).Success?
    ensures var es := Entries(Container(root).value.children);
      ParseConnections(root).Success? ==>
        && |ParseConnections(root).value| == |es|
        && forall i :: 0 <= i < |es| ==> ParseConnections(root).value[i] == ExtractConnection(es[i]).value
  {
  }

  /** No container anywhere in the tree, at any depth: the empty list. */
  lemma NoContainerNoConnections(root: Element)
    requires forall path :: ValidPath(root, path) ==> !IsContainer(NodeAt(root, path))
    ensures ParseConnections(root) == Success([])
  {
    var nodes := PreOrder(root);
    forall j | 0 <= j < |nodes| ensures !IsContainer(nodes[j]) {
      PreOrderOnlyDescendants(root, nodes[j]);
    }
  }

  /** Only the first container in document order is used: whatever follows
      it, later containers included, does not change the result. */
  lemma FirstContainerOnly(root: Element, k: nat)
    requires k < |PreOrder(root)| && IsContainer(PreOrder(root)[k])
    requires forall j :: 0 <= j < k ==> !IsContainer(PreOrder(root)[j])
    ensures ParseConnections(root) == ExtractAll(Entries(PreOrder(root)[k].children))
  {
    var nodes := PreOrder(root);
    FirstContainerIs(nodes, 0, k);
    assert Container(root) == Some(nodes[k]);
  }

  /** All or nothing: one entry of the container that fails to extract
      fails the whole call, with the error of the first such entry. */
  lemma OneBadEntryFailsAll(root: Element, k: nat, i: nat)
    requires k < |PreOrder(root)| && IsContainer(PreOrder(root)[k])
    requires forall j :: 0 <= j < k ==> !IsContainer(PreOrder(root)[j])
    requires i < |Entries(PreOrder(root)[k].children)|
    requires ExtractConnection(Entries(PreOrder(root)[k].children)[i]).Failure?
    ensures ParseConnections(root).Failure?
    ensures exists t :: 0 <= t <= i && ExtractConnection(Entries(PreOrder(root)[k].children)[t]) == Failure(ParseConnections(root).error)
  {
    FirstContainerOnly(root, k);
  }

  // ---------------------------------------------------------------------
  // grab_connection.

  /** The default connection type: trains and buses. */
  const TrainBus := "vlakbus"

  /** What the page request is made for. */
  datatype Query = Query(connectionType: string, stationFrom: string, stationTo: string)

  datatype GrabError = StationsSame

  /** `grab_connection`: equal stations are refused before any request;
      otherwise the page is whatever `fetch` (URL building and the HTTP
      request, outside this model) returns for the query. */
  function GrabConnection(stationFrom: string, stationTo: string, connectionType: string, fetch: Query -> seq<bv8>): (r: Result<seq<bv8>, GrabError>)
    ensures r.Failure? <==> stationFrom == stationTo
    ensures r.Failure? ==> r.error == StationsSame
    ensures r.Success? ==> r.value == fetch(Query(connectionType, stationFrom, stationTo))
  {
    if stationFrom == stationTo then Failure(StationsSame)
    else Success(fetch(Query(connectionType, stationFrom, stationTo)))
  }

  /** `grab_connection` called without a connection type: the query asks
      for trains and buses. */
  function GrabDefault(stationFrom: string, stationTo: string, fetch: Query -> seq<bv8>): (r: Result<seq<bv8>, GrabError>)
    ensures r.Failure? <==> stationFrom == stationTo
    ensures r.Success? ==> r.value == fetch(Query(TrainBus, stationFrom, stationTo))
  {
    GrabConnection(stationFrom, stationTo, TrainBus, fetch)
  }
}
