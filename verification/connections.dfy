/** One journey record and the rules that pull its fields out of a
    `connectionBox` element: fixed child-index paths, the two owner
    layouts, the delay bubble, and the station-detail scans. */
module Connections {
  import opened Wrappers
  import opened Html
  import opened PyStr

  /** Class of the owner block in the inline owner layout. */
  const InlineOwnerClass := "line-right-part reset"
  /** Stripped class of a station-name element. */
  const NameClass := "name"
  /** Title of a platform element: "nástupište". */
  const PlatformTitle := "n\U{E1}stupi\U{161}te"
  /** Title of a request-stop marker: "na znamenie". */
  const RequestTitle := "na znamenie"

  /** Scan result for one station-detail block; `None` where nothing matched
      (or where the last match had no text). */
  datatype StationDetail = StationDetail(station: Option<string>, platform: Option<string>, onRequest: Option<string>)

  const NoDetail := StationDetail(None, None, None)

  /** A boundary stop of the journey: its time and its scanned details. */
  datatype Stop = Stop(time: Option<string>, detail: StationDetail)

  /** One journey record. Text fields are `Option` because an element's
      text may be `None`; only `title` is read with `attrib[...]` and so is
      always a string. */
  datatype Connection = Connection(
    shareUrl: Option<string>,
    depTime: Option<string>,
    depDate: Option<string>,
    timeTotal: Option<string>,
    distance: Option<string>,
    title: string,
    id: Option<string>,
    owner: Option<string>,
    delay: Option<string>,
    departure: Stop,
    arrival: Stop)

  // ---------------------------------------------------------------------
  // Owner: two alternate layouts, chosen once by a class check.

  datatype OwnerSource = InlineBlock | ParentBlock

  function OwnerLayout(specs: Element): (s: OwnerSource)
    ensures s == InlineBlock <==> Get(specs, "class") == Some(InlineOwnerClass)
  {
    if Get(specs, "class") == Some(InlineOwnerClass) then InlineBlock else ParentBlock
  }

  /** The owner text: `specs[0][0]` in the inline layout, otherwise
      `titleContainer[3][0][0]`. */
  function Owner(titleContainer: Element, specs: Element): (r: Result<Option<string>, Error>)
    ensures OwnerLayout(specs) == InlineBlock ==> (r.Success? <==> ValidPath(specs, [0, 0]))
    ensures OwnerLayout(specs) == InlineBlock && r.Success? ==> r.value == NodeAt(specs, [0, 0]).text
    ensures OwnerLayout(specs) == ParentBlock ==> (r.Success? <==> ValidPath(titleContainer, [3, 0, 0]))
    ensures OwnerLayout(specs) == ParentBlock && r.Success? ==> r.value == NodeAt(titleContainer, [3, 0, 0]).text
    ensures r.Failure? ==> r.error == IndexError
  {
    AtValid(specs, [0, 0]);
    AtValid(titleContainer, [3, 0, 0]);
    match OwnerLayout(specs)
    case InlineBlock =>
      var n :- At(specs, [0, 0]);
      Success(n.text)
    case ParentBlock =>
      var n :- At(titleContainer, [3, 0, 0]);
      Success(n.text)
  }

  // ---------------------------------------------------------------------
  // Delay bubble.

  /** The text the delay is read from: the first child's when the bubble
      has children, and then the bubble's own text is ignored; otherwise
      the bubble's own. */
  function DelaySource(bubble: Element): (r: Option<string>)
    ensures Child(bubble, 0).Success? ==> r == Child(bubble, 0).value.text
    ensures Child(bubble, 0).Failure? ==> r == bubble.text
  {
    if |bubble.children| != 0 then bubble.children[0].text else bubble.text
  }

  /** The delay: the source text stripped, then discarded only if it passes
      `isspace()`. A `None` source raises when `strip()` is called on it. */
  function Delay(bubble: Element): (r: Result<Option<string>, Error>)
    ensures r.Success? <==> DelaySource(bubble).Some?
    ensures r.Failure? ==> r.error == AttributeError
    ensures r.Success? ==> r.value.Some? && Trimmed(r.value.value)
  {
    match DelaySource(bubble)
    case None => Failure(AttributeError)
    case Some(src) =>
      var d := Strip(src);
      StrippedNotSpace(src);
      Success(if IsSpace(d) then None else Some(d))
  }

  /** The delay is the bubble's text with whitespace removed from its two
      ends only: nothing inside it is dropped. */
  lemma DelayIsCore(bubble: Element)
    requires DelaySource(bubble).Some?
    ensures Delay(bubble).Success? && Delay(bubble).value.Some?
    ensures Core(DelaySource(bubble).value, Delay(bubble).value.value)
  {
    StripIsCore(DelaySource(bubble).value);
  }

  /** A bubble with children reads its delay from the first child: its own
      text and the later children do not matter. */
  lemma DelayIgnoresOwnText(b1: Element, b2: Element)
    requires |b1.children| != 0 && |b2.children| != 0
    requires b1.children[0].text == b2.children[0].text
    ensures Delay(b1) == Delay(b2)
  {
  }

  /** A blank bubble gives the empty string, not `None`. */
  lemma BlankDelayIsEmpty(bubble: Element)
    requires DelaySource(bubble).Some? && AllSpace(DelaySource(bubble).value)
    ensures Delay(bubble) == Success(Some(""))
  {
    var src := DelaySource(bubble).value;
    assert src == src + "" + "";
    StripUnique(src, "", "");
  }

  /** Surrounding whitespace is dropped and the rest is kept verbatim. */
  lemma PaddedDelay(bubble: Element, a: string, v: string, b: string)
    requires DelaySource(bubble) == Some(a + v + b)
    requires AllSpace(a) && AllSpace(b) && Trimmed(v)
    ensures Delay(bubble) == Success(Some(v))
  {
    StripUnique(a, v, b);
  }

  // ---------------------------------------------------------------------
  // Station-detail scan.

  datatype Mark = StationName | Platform | OnRequest | Unmarked

  /** `el_class.strip() if el_class else None`: an absent or empty class
      reads as `None`. */
  function StrippedClass(e: Element): (r: Option<string>)
    ensures r.Some? <==> "class" in e.attrs && e.attrs["class"] != ""
    ensures r.Some? ==> r.value == Strip(e.attrs["class"])
  {
    match Get(e, "class")
    case Some(c) => if c != "" then Some(Strip(c)) else None
    case None => None
  }

  /** Which station-detail field an element sets; the class test comes
      first, so a "name" element's title is never looked at. */
  function Classify(e: Element): Mark {
    if StrippedClass(e) == Some(NameClass) then StationName
    else if Get(e, "title") == Some(PlatformTitle) then Platform
    else if Get(e, "title") == Some(RequestTitle) then OnRequest
    else Unmarked
  }

  /** An element whose stripped class is "name" sets the station name,
      whatever its title says. */
  lemma NameIgnoresTitle(d: StationDetail, e: Element)
    requires StrippedClass(e) == Some(NameClass)
    ensures Record(d, e, Classify) == d.(station := e.text)
  {
  }

  /** Otherwise the platform title sets the platform and nothing else. */
  lemma PlatformTitleSetsPlatform(d: StationDetail, e: Element)
    requires StrippedClass(e) != Some(NameClass) && Get(e, "title") == Some(PlatformTitle)
    ensures Record(d, e, Classify) == d.(platform := e.text)
  {
  }

  /** Otherwise the request title sets the on-request note and nothing else. */
  lemma RequestTitleSetsRequest(d: StationDetail, e: Element)
    requires StrippedClass(e) != Some(NameClass) && Get(e, "title") == Some(RequestTitle)
    ensures Record(d, e, Classify) == d.(onRequest := e.text)
  {
  }

  /** An element with none of the three markers leaves the record alone. */
  lemma UnmarkedKeepsDetail(d: StationDetail, e: Element)
    requires StrippedClass(e) != Some(NameClass)
    requires Get(e, "title") != Some(PlatformTitle) && Get(e, "title") != Some(RequestTitle)
    ensures Record(d, e, Classify) == d
  {
  }

  /** The field of a detail record a mark addresses. */
  function Field(d: StationDetail, m: Mark): Option<string>
    requires m != Unmarked
  {
    match m
    case StationName => d.station
    case Platform => d.platform
    case OnRequest => d.onRequest
  }

  /** One iteration of the scan: overwrite the field the element is marked
      for with the element's text. The classification is a parameter, so
      that the scan is one generic last-write-wins utility. */
  function Record(d: StationDetail, e: Element, mark: Element -> Mark): (r: StationDetail)
    ensures forall m :: m != Unmarked ==> Field(r, m) == (if mark(e) == m then e.text else Field(d, m))
  {
    match mark(e)
    case StationName => d.(station := e.text)
    case Platform => d.(platform := e.text)
    case OnRequest => d.(onRequest := e.text)
    case Unmarked => d
  }

  /** The state of the scan after its first `n` iterations over `es`,
      every field starting at `None`. */
  function ScanPrefix(es: seq<Element>, n: nat, mark: Element -> Mark): StationDetail
    requires n <= |es|
  {
    if n == 0 then NoDetail else Record(ScanPrefix(es, n - 1, mark), es[n - 1], mark)
  }

  /** `for element in node.iter(): ...` over a station-detail block. */
  function ScanStation(block: Element): StationDetail {
    var es := PreOrder(block);
    ScanPrefix(es, |es|, Classify)
  }

  /** No element among the first `n` is marked `m`. */
  ghost predicate NoMark(es: seq<Element>, n: nat, m: Mark, mark: Element -> Mark)
    requires n <= |es|
  {
    forall i :: 0 <= i < n ==> mark(es[i]) != m
  }

  /** Position `i` holds the last element marked `m` among the first `n`. */
  ghost predicate LastMarkAt(es: seq<Element>, n: nat, m: Mark, mark: Element -> Mark, i: int)
    requires n <= |es|
  {
    0 <= i < n && mark(es[i]) == m && forall j :: i < j < n ==> mark(es[j]) != m
  }

  /** The position of the last element marked `m` among the first `n`. */
  function LastMark(es: seq<Element>, n: nat, m: Mark, mark: Element -> Mark): (r: Option<nat>)
    requires n <= |es|
    ensures r.Some? ==> r.value < n
  {
    if n == 0 then None
    else if mark(es[n - 1]) == m then Some(n - 1)
    else LastMark(es, n - 1, m, mark)
  }

  /** The backwards search finds the last mark, and finds none exactly
      when there is none. */
  lemma {:induction false} LastMarkFound(es: seq<Element>, n: nat, m: Mark, mark: Element -> Mark)
    requires n <= |es|
    ensures LastMark(es, n, m, mark).None? <==> NoMark(es, n, m, mark)
    ensures LastMark(es, n, m, mark).Some? ==> LastMarkAt(es, n, m, mark, LastMark(es, n, m, mark).value)
  {
    if n > 0 && mark(es[n - 1]) != m {
      LastMarkFound(es, n - 1, m, mark);
      assert NoMark(es, n, m, mark) <==> NoMark(es, n - 1, m, mark);
    }
  }

  /** The scan's field is the text at the last mark, or `None`. */
  lemma {:induction false} ScanReadsLastMark(es: seq<Element>, n: nat, m: Mark, mark: Element -> Mark)
    requires n <= |es| && m != Unmarked
    ensures Field(ScanPrefix(es, n, mark), m) ==
      match LastMark(es, n, m, mark) case None => None case Some(i) => es[i].text
  {
    if n > 0 {
      ScanReadsLastMark(es, n - 1, m, mark);
    }
  }

  /** Last write wins: after `n` iterations each field holds the text of
      the last element so far marked for it, and `None` if there is none. */
  lemma ScanLastWins(es: seq<Element>, n: nat, m: Mark, mark: Element -> Mark)
    requires n <= |es| && m != Unmarked
    ensures NoMark(es, n, m, mark) ==> Field(ScanPrefix(es, n, mark), m) == None
    ensures !NoMark(es, n, m, mark) ==>
      exists i :: LastMarkAt(es, n, m, mark, i) && Field(ScanPrefix(es, n, mark), m) == es[i].text
  {
    ScanReadsLastMark(es, n, m, mark);
    LastMarkFound(es, n, m, mark);
  }

  /** The station-detail statement: each field is the text of the last
      element of the block's traversal (the block itself included) marked
      for it, and `None` when no element is. */
  lemma StationLastWins(block: Element, m: Mark)
    requires m != Unmarked
    ensures var es := PreOrder(block);
      && (NoMark(es, |es|, m, Classify) ==> Field(ScanStation(block), m) == None)
      && (!NoMark(es, |es|, m, Classify) ==>
            exists i :: LastMarkAt(es, |es|, m, Classify, i) && Field(ScanStation(block), m) == es[i].text)
  {
    var es := PreOrder(block);
    ScanLastWins(es, |es|, m, Classify);
  }

  /** There is at most one last match. */
  lemma LastMarkUnique(es: seq<Element>, n: nat, m: Mark, mark: Element -> Mark, i: int, k: int)
    requires n <= |es|
    requires LastMarkAt(es, n, m, mark, i) && LastMarkAt(es, n, m, mark, k)
    ensures i == k
  {
    assert !(i < k) && !(k < i);
  }

  // ---------------------------------------------------------------------
  // Fixed layout of a connectionBox, one reader per block.

  /** `html_element[0][0][1]`: the header block. */
  const HeadPath: seq<nat> := [0, 0, 1]
  /** `html_element[1][0][0]`: the details block. */
  const DetailsPath: seq<nat> := [1, 0, 0]
  /** `conn_details[0][0][0]`: the title container, inside the details block. */
  const TitleContainerPath: seq<nat> := [0, 0, 0]

  datatype Header = Header(depTime: Option<string>, depDate: Option<string>, timeTotal: Option<string>, distance: Option<string>)

  /** The header block: departure time and date from child 0, duration and
      distance from child 1. */
  function ReadHeader(head: Element): (r: Result<Header, Error>)
    ensures r.Success? <==> ValidPath(head, [0, 0]) && ValidPath(head, [1, 1])
    ensures r.Success? ==> r.value == Header(
      NodeAt(head, [0]).text, NodeAt(head, [0, 0]).text,
      NodeAt(head, [1, 0]).text, NodeAt(head, [1, 1]).text)
    ensures r.Failure? ==> r.error == IndexError
  {
    var resetDate :- Child(head, 0);
    var depDate :- Child(resetDate, 0);
    var resetTotal :- Child(head, 1);
    var total :- Child(resetTotal, 0);
    var distance :- Child(resetTotal, 1);
    Success(Header(resetDate.text, depDate.text, total.text, distance.text))
  }

  datatype TitleBlock = TitleBlock(title: string, id: Option<string>, owner: Option<string>)

  /** The title container's layout: the title node at child 1 with a
      `title` attribute and a first child, the specs block at child 2, and
      the owner text where the owner layout puts it. */
  ghost predicate TitleShaped(tc: Element) {
    && ValidPath(tc, [1, 0])
    && "title" in NodeAt(tc, [1]).attrs
    && ValidPath(tc, [2])
    && (if OwnerLayout(NodeAt(tc, [2])) == InlineBlock then ValidPath(tc, [2, 0, 0]) else ValidPath(tc, [3, 0, 0]))
  }

  /** The title block: the full title from the `title` attribute (not the
      visible text), the line id from the title node's first child, and
      the owner from one of its two layouts. */
  function ReadTitle(tc: Element): (r: Result<TitleBlock, Error>)
    ensures r.Success? <==> TitleShaped(tc)
    ensures r.Success? ==> TitleFields(tc, r.value)
    ensures r.Failure? ==> r.error == IndexError || r.error == KeyError("title")
  {
    var titleNode :- Child(tc, 1);
    var title :- Attrib(titleNode, "title");
    var idNode :- Child(titleNode, 0);
    var specs :- Child(tc, 2);
    var owner :- Owner(tc, specs);
    Success(TitleBlock(title, idNode.text, owner))
  }

  /** The track block: the departure stop at child 0 and the arrival stop
      at child 1, each with its time at child 0 and its station-detail
      block at child 1. The departure scan reads only the first
      sub-block, the arrival scan only the second. */
  function ReadTrack(track: Element): (r: Result<(Stop, Stop), Error>)
    ensures r.Success? <==> TrackShaped(track)
    ensures r.Success? ==>
      var from := track.children[0];
      var to := track.children[1];
      r.value == (
        Stop(from.children[0].text, ScanStation(from.children[1])),
        Stop(to.children[0].text, ScanStation(to.children[1])))
    ensures r.Failure? ==> r.error == IndexError
  {
    var from :- Child(track, 0);
    var to :- Child(track, 1);
    var fromTime :- Child(from, 0);
    var toTime :- Child(to, 0);
    var fromStation :- Child(from, 1);
    var toStation :- Child(to, 1);
    Success((Stop(fromTime.text, ScanStation(fromStation)), Stop(toTime.text, ScanStation(toStation))))
  }

  /** The details block's layout: a well-shaped title container, a delay
      bubble with a text to strip, and a track block with both stops. */
  ghost predicate DetailsShaped(details: Element) {
    && ValidPath(details, TitleContainerPath)
    && TitleShaped(NodeAt(details, TitleContainerPath))
    && RunShaped(details)
  }

  /** The part of the details block after the title container: the delay
      bubble at child 1 and the track block's two stops at child 2. */
  ghost predicate RunShaped(details: Element) {
    && ValidPath(details, [1])
    && DelaySource(NodeAt(details, [1])).Some?
    && ValidPath(details, [2])
    && TrackShaped(NodeAt(details, [2]))
  }

  /** The track block's layout: both stops with a station-detail block. */
  ghost predicate TrackShaped(track: Element) {
    && |track.children| >= 2
    && |track.children[0].children| >= 2
    && |track.children[1].children| >= 2
  }

  datatype Run = Run(delay: Option<string>, departure: Stop, arrival: Stop)

  /** Delay bubble at child 1, then track block at child 2. */
  function ReadRun(details: Element): (r: Result<Run, Error>)
    ensures r.Success? <==> RunShaped(details)
    ensures r.Success? ==> RunFields(details, r.value)
  {
    var bubble :- Child(details, 1);
    assert NodeAt(details, [1]) == bubble;
    var delay :- Delay(bubble);
    var track :- Child(details, 2);
    var stops :- ReadTrack(track);
    Success(Run(delay, stops.0, stops.1))
  }

  /** Where the delay and the two stops come from, relative to the details block. */
  ghost predicate RunFields(details: Element, run: Run) {
    && RunShaped(details)
    && Delay(NodeAt(details, [1])) == Success(run.delay)
    && ReadTrack(NodeAt(details, [2])) == Success((run.departure, run.arrival))
  }

  datatype Details = Details(titleBlock: TitleBlock, run: Run)

  /** The details block: the title block first, then delay and track. */
  function ReadDetails(details: Element): (r: Result<Details, Error>)
    ensures r.Success? <==> DetailsShaped(details)
    ensures r.Success? ==> DetailFields(details, r.value)
  {
    AtValid(details, TitleContainerPath);
    var tc :- At(details, TitleContainerPath);
    var titleBlock :- ReadTitle(tc);
    var run :- ReadRun(details);
    Success(Details(titleBlock, run))
  }

  /** Where each detail field comes from, relative to the details block. */
  ghost predicate DetailFields(details: Element, d: Details) {
    && ValidPath(details, TitleContainerPath)
    && TitleFields(NodeAt(details, TitleContainerPath), d.titleBlock)
    && RunFields(details, d.run)
  }

  /** Title from the title node's `title` attribute, id from its first
      child's text, owner from the specs block or the fourth child. */
  ghost predicate TitleFields(tc: Element, t: TitleBlock) {
    && TitleShaped(tc)
    && t.title == NodeAt(tc, [1]).attrs["title"]
    && t.id == NodeAt(tc, [1, 0]).text
    && t.owner == (if OwnerLayout(NodeAt(tc, [2])) == InlineBlock then NodeAt(tc, [2, 0, 0]).text else NodeAt(tc, [3, 0, 0]).text)
  }

  /** Departure time and date from the header's child 0 and its first
      child, duration and distance from the children of child 1. */
  ghost predicate HeaderFields(head: Element, c: Connection) {
    && ValidPath(head, [0, 0]) && ValidPath(head, [1, 1])
    && c.depTime == NodeAt(head, [0]).text
    && c.depDate == NodeAt(head, [0, 0]).text
    && c.timeTotal == NodeAt(head, [1, 0]).text
    && c.distance == NodeAt(head, [1, 1]).text
  }

  /** The layout an entry must have for extraction to succeed. */
  ghost predicate WellShaped(box: Element) {
    && ValidPath(box, HeadPath)
    && ValidPath(NodeAt(box, HeadPath), [0, 0])
    && ValidPath(NodeAt(box, HeadPath), [1, 1])
    && ValidPath(box, DetailsPath)
    && DetailsShaped(NodeAt(box, DetailsPath))
  }

  /** `Connection.__init__`: the blocks are read in the order the source
      reads them, so the first missing index, the missing `title`
      attribute or a `None` delay text is the error raised. The delay it
      stores is never `None`. */
  function ExtractConnection(box: Element): (r: Result<Connection, Error>)
    ensures r.Success? ==> r.value.delay.Some? && Trimmed(r.value.delay.value)
  {
    var head :- At(box, HeadPath);
    var shareUrl := Get(box, "data-share-url");
    var header :- ReadHeader(head);
    var details :- At(box, DetailsPath);
    var d :- ReadDetails(details);
    Success(Connection(
      shareUrl,
      header.depTime, header.depDate, header.timeTotal, header.distance,
      d.titleBlock.title, d.titleBlock.id, d.titleBlock.owner,
      d.run.delay,
      d.run.departure, d.run.arrival))
  }

  /** Extraction succeeds exactly on well-shaped entries. */
  lemma ExtractConnectionShape(box: Element)
    ensures ExtractConnection(box).Success? <==> WellShaped(box)
  {
    AtValid(box, HeadPath);
    AtValid(box, DetailsPath);
  }

  /** On a well-shaped entry every field is read from its fixed position
      below the header block (`box[0][0][1]`) or the details block
      (`box[1][0][0]`). */
  lemma ExtractConnectionFields(box: Element)
    requires WellShaped(box)
    ensures var c := ExtractConnection(box).value;
      && c.shareUrl == Get(box, "data-share-url")
      && HeaderFields(NodeAt(box, HeadPath), c)
      && DetailFields(NodeAt(box, DetailsPath), Details(TitleBlock(c.title, c.id, c.owner), Run(c.delay, c.departure, c.arrival)))
  {
    ExtractConnectionShape(box);
    AtValid(box, HeadPath);
    AtValid(box, DetailsPath);
  }
}
