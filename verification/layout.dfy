/** Pages built from records: for every record with a stripped delay there
    is an entry that extracts back to exactly that record, in either owner
    layout, and a page of such entries parses back to the list. */
module Layout {
  import opened Wrappers
  import opened Html
  import opened PyStr
  import opened Connections
  import opened Extraction

  /** An element with a text and nothing else. */
  function Leaf(text: Option<string>): Element {
    Element("span", map[], [], text)
  }

  /** An element with children and nothing else. */
  function Node(children: seq<Element>): Element {
    Element("div", map[], children, None)
  }

  // ---------------------------------------------------------------------
  // Station-detail block.

  /** A station-detail block holding one marked element per field. An
      absent field is an element whose text is `None`, which the scan
      writes as `None`. */
  function StationBlock(d: StationDetail): Element {
    Node([
      Element("span", map["class" := NameClass], [], d.station),
      Element("span", map["title" := PlatformTitle], [], d.platform),
      Element("span", map["title" := RequestTitle], [], d.onRequest)])
  }

  /** Childless siblings are traversed as they stand. */
  lemma {:induction false} PreOrderLeaves(cs: seq<Element>)
    requires forall i :: 0 <= i < |cs| ==> cs[i].children == []
    ensures PreOrderAll(cs) == cs
    decreases |cs|
  {
    if cs != [] {
      PreOrderLeaves(cs[1..]);
      assert PreOrder(cs[0]) == [cs[0]] + PreOrderAll([]);
      assert cs == [cs[0]] + cs[1..];
    }
  }

  lemma NameIsTrimmed()
    ensures Strip(NameClass) == NameClass
  {
    assert "" + NameClass + "" == NameClass;
    StripUnique("", NameClass, "");
  }

  /** The scan reads back every field of the block. */
  lemma StationRoundTrip(d: StationDetail)
    ensures ScanStation(StationBlock(d)) == d
  {
    var b := StationBlock(d);
    var es := PreOrder(b);
    NameIsTrimmed();
    PreOrderLeaves(b.children);
    assert es == [b, b.children[0], b.children[1], b.children[2]];
    assert Classify(b) == Unmarked;
    assert Classify(es[1]) == StationName;
    assert Classify(es[2]) == Platform;
    assert Classify(es[3]) == OnRequest;
    assert ScanPrefix(es, 1, Classify) == NoDetail;
    assert ScanPrefix(es, 2, Classify) == NoDetail.(station := d.station);
    assert ScanPrefix(es, 3, Classify) == NoDetail.(station := d.station, platform := d.platform);
    assert ScanPrefix(es, 4, Classify) == d;
  }

  // ---------------------------------------------------------------------
  // Blocks of an entry.

  /** The header block: departure time with the date below it, then the
      duration and the distance side by side. */
  function HeadBlock(c: Connection): Element {
    Node([
      Element("span", map[], [Leaf(c.depDate)], c.depTime),
      Node([Leaf(c.timeTotal), Leaf(c.distance)])])
  }

  lemma HeaderRoundTrip(c: Connection)
    ensures ReadHeader(HeadBlock(c)) == Success(Header(c.depTime, c.depDate, c.timeTotal, c.distance))
  {
  }

  /** The specs block of the inline owner layout, holding the owner. */
  function InlineSpecs(owner: Option<string>): Element {
    Element("div", map["class" := InlineOwnerClass], [Node([Leaf(owner)])], None)
  }

  /** The title container: an unread first child, the title node with the
      full title as attribute and the line id as first child, the specs
      block, and in the parent layout the owner under the fourth child. */
  function TitleContainer(c: Connection, inline: bool): Element {
    var titleNode := Element("a", map["title" := c.title], [Leaf(c.id)], None);
    if inline then Node([Leaf(None), titleNode, InlineSpecs(c.owner)])
    else Node([Leaf(None), titleNode, Node([]), Node([Node([Leaf(c.owner)])])])
  }

  lemma TitleRoundTrip(c: Connection, inline: bool)
    ensures ReadTitle(TitleContainer(c, inline)) == Success(TitleBlock(c.title, c.id, c.owner))
  {
    var tc := TitleContainer(c, inline);
    assert OwnerLayout(tc.children[2]) == (if inline then InlineBlock else ParentBlock);
  }

  /** A stop: its time, then its station-detail block. */
  function StopBlock(s: Stop): Element {
    Node([Leaf(s.time), StationBlock(s.detail)])
  }

  lemma TrackRoundTrip(departure: Stop, arrival: Stop)
    ensures ReadTrack(Node([StopBlock(departure), StopBlock(arrival)])) == Success((departure, arrival))
  {
    StationRoundTrip(departure.detail);
    StationRoundTrip(arrival.detail);
  }

  /** The details block: the title container three levels down, the delay
      bubble holding the delay text, then the track. */
  function DetailsBlock(c: Connection, inline: bool): Element
    requires c.delay.Some?
  {
    Node([
      Node([Node([TitleContainer(c, inline)])]),
      Leaf(c.delay),
      Node([StopBlock(c.departure), StopBlock(c.arrival)])])
  }

  lemma DelayRoundTrip(v: string)
    requires Trimmed(v)
    ensures Delay(Leaf(Some(v))) == Success(Some(v))
  {
    assert "" + v + "" == v;
    PaddedDelay(Leaf(Some(v)), "", v, "");
  }

  lemma RunRoundTrip(c: Connection, inline: bool)
    requires c.delay.Some? && Trimmed(c.delay.value)
    ensures ReadRun(DetailsBlock(c, inline)) == Success(Run(c.delay, c.departure, c.arrival))
  {
    var details := DetailsBlock(c, inline);
    DelayRoundTrip(c.delay.value);
    TrackRoundTrip(c.departure, c.arrival);
    assert Child(details, 1) == Success(Leaf(c.delay));
    assert Child(details, 2) == Success(Node([StopBlock(c.departure), StopBlock(c.arrival)]));
  }

  /** The details reader assembles its result from the title reader and
      the run reader. */
  lemma ReadDetailsSteps(details: Element, tc: Element, t: TitleBlock, run: Run)
    requires At(details, TitleContainerPath) == Success(tc) && ReadTitle(tc) == Success(t)
    requires ReadRun(details) == Success(run)
    ensures ReadDetails(details) == Success(Details(t, run))
  {
  }

  lemma DetailsRoundTrip(c: Connection, inline: bool)
    requires c.delay.Some? && Trimmed(c.delay.value)
    ensures ReadDetails(DetailsBlock(c, inline)) ==
      Success(Details(TitleBlock(c.title, c.id, c.owner), Run(c.delay, c.departure, c.arrival)))
  {
    var details := DetailsBlock(c, inline);
    TitleRoundTrip(c, inline);
    RunRoundTrip(c, inline);
    At3(details, 0, 0, 0);
    ReadDetailsSteps(details, TitleContainer(c, inline), TitleBlock(c.title, c.id, c.owner),
      Run(c.delay, c.departure, c.arrival));
  }

  // ---------------------------------------------------------------------
  // Whole entries and pages.

  /** The entry's own attributes: the marker id, and the share URL when
      the record has one. */
  function BoxAttrs(c: Connection): map<string, string> {
    match c.shareUrl
    case None => map["id" := EntryMarker]
    case Some(u) => map["id" := EntryMarker, "data-share-url" := u]
  }

  /** A journey entry laid out the way the extraction reads it: the
      header at `[0][0][1]` and the details at `[1][0][0]`. */
  function Box(c: Connection, inline: bool): Element
    requires c.delay.Some?
  {
    Element("div", BoxAttrs(c),
      [Node([Node([Leaf(None), HeadBlock(c)])]),
       Node([Node([DetailsBlock(c, inline)])])],
      None)
  }

  /** Round trip for one entry: every record whose delay is a stripped
      string is read back unchanged from its entry, in both owner layouts. */
  lemma BoxRoundTrip(c: Connection, inline: bool)
    requires c.delay.Some? && Trimmed(c.delay.value)
    ensures ExtractConnection(Box(c, inline)) == Success(c)
  {
    var box := Box(c, inline);
    HeaderRoundTrip(c);
    DetailsRoundTrip(c, inline);
    At3(box, 0, 0, 1);
    At3(box, 1, 0, 0);
    assert Get(box, "data-share-url") == c.shareUrl;
    ExtractConnectionSteps(box, HeadBlock(c), DetailsBlock(c, inline),
      Header(c.depTime, c.depDate, c.timeTotal, c.distance),
      Details(TitleBlock(c.title, c.id, c.owner), Run(c.delay, c.departure, c.arrival)));
  }

  /** A three-step index path into an element whose indices all exist. */
  lemma At3(e: Element, a: nat, b: nat, c: nat)
    requires a < |e.children| && b < |e.children[a].children| && c < |e.children[a].children[b].children|
    ensures At(e, [a, b, c]) == Success(e.children[a].children[b].children[c])
  {
    var x := e.children[a];
    var y := x.children[b];
    assert [a, b, c][0] == a && [a, b, c][1..] == [b, c];
    assert [b, c][0] == b && [b, c][1..] == [c];
    assert [c][0] == c && [c][1..] == [];
    assert At(y, [c]) == At(y.children[c], []);
    assert At(x, [b, c]) == At(y, [c]);
    assert At(e, [a, b, c]) == At(x, [b, c]);
  }

  /** Extraction assembles the record from the two block readers. */
  lemma ExtractConnectionSteps(box: Element, head: Element, details: Element, h: Header, d: Details)
    requires At(box, HeadPath) == Success(head) && ReadHeader(head) == Success(h)
    requires At(box, DetailsPath) == Success(details) && ReadDetails(details) == Success(d)
    ensures ExtractConnection(box) == Success(Connection(
      Get(box, "data-share-url"), h.depTime, h.depDate, h.timeTotal, h.distance,
      d.titleBlock.title, d.titleBlock.id, d.titleBlock.owner, d.run.delay, d.run.departure, d.run.arrival))
  {
  }

  /** Every delay of the list is a stripped string: the records the
      extraction can produce. */
  predicate Extractable(cs: seq<Connection>) {
    forall i :: 0 <= i < |cs| ==> cs[i].delay.Some? && Trimmed(cs[i].delay.value)
  }

  /** The entries of a list, in order. */
  function Boxes(cs: seq<Connection>, inline: bool): (r: seq<Element>)
    requires Extractable(cs)
    ensures |r| == |cs|
    ensures forall i :: 0 <= i < |cs| ==> r[i] == Box(cs[i], inline)
  {
    seq(|cs|, i requires 0 <= i < |cs| => Box(cs[i], inline))
  }

  /** The container holding the given children. */
  function ListBlock(children: seq<Element>): Element {
    Element("div", map["class" := ContainerClass], children, None)
  }

  /** A page: a root without a class above the container of entries. */
  function Page(cs: seq<Connection>, inline: bool): Element
    requires Extractable(cs)
  {
    Element("html", map[], [ListBlock(Boxes(cs, inline))], None)
  }

  lemma MarkerIsEntry(e: Element)
    requires Get(e, "id") == Some(EntryMarker)
    ensures IsEntry(e)
  {
    assert OccursAt(EntryMarker, EntryMarker, 0);
  }

  /** Children that are all entries are all selected, in order. */
  lemma AllEntries(cs: seq<Element>)
    requires forall i :: 0 <= i < |cs| ==> IsEntry(cs[i])
    ensures Entries(cs) == cs
  {
    AllKept(cs, 0, IsEntry);
  }

  lemma {:induction false} AllKept(cs: seq<Element>, k: nat, keep: Element -> bool)
    requires k <= |cs|
    requires forall i :: 0 <= i < |cs| ==> keep(cs[i])
    ensures Filter(cs, k, keep) == cs[k..]
    decreases |cs| - k
  {
    if k < |cs| {
      AllKept(cs, k + 1, keep);
      assert cs[k..] == [cs[k]] + cs[k + 1..];
    }
  }

  /** The container is the first node after the root. */
  lemma PageContainer(root: Element, children: seq<Element>)
    requires root == Element("html", map[], [ListBlock(children)], None)
    ensures Container(root) == Some(ListBlock(children))
  {
    var nodes := PreOrder(root);
    var list := ListBlock(children);
    assert PreOrderAll(root.children) == PreOrder(list) + PreOrderAll([]);
    assert PreOrder(list)[0] == list;
    assert nodes[0] == root && !IsContainer(root);
    assert nodes[1] == list && IsContainer(list);
    assert FirstContainer(nodes, 1) == Some(1);
    assert FirstContainer(nodes, 0) == Some(1);
  }

  /** Round trip for a page: a list of extractable records laid out as
      entries of one container parses back to the same list. */
  lemma PageRoundTrip(cs: seq<Connection>, inline: bool)
    requires Extractable(cs)
    ensures ParseConnections(Page(cs, inline)) == Success(cs)
  {
    var es := Boxes(cs, inline);
    PageContainer(Page(cs, inline), es);
    forall i | 0 <= i < |es| ensures IsEntry(es[i]) && ExtractConnection(es[i]) == Success(cs[i]) {
      MarkerIsEntry(es[i]);
      BoxRoundTrip(cs[i], inline);
    }
    AllEntries(es);
    var r := ExtractAll(es);
    assert r.Success?;
    assert r.value == cs;
  }

  /** An entry with the marker id and nothing inside it. */
  const EmptyBox := Element("div", map["id" := EntryMarker], [], None)

  /** All or nothing on a concrete page: a good entry followed by an empty
      one yields no list at all, only the index error of the second. */
  lemma EmptyEntrySpoilsPage(c: Connection, inline: bool)
    requires c.delay.Some? && Trimmed(c.delay.value)
    ensures ParseConnections(Element("html", map[], [ListBlock([Box(c, inline), EmptyBox])], None)) == Failure(IndexError)
  {
    var es := [Box(c, inline), EmptyBox];
    PageContainer(Element("html", map[], [ListBlock(es)], None), es);
    MarkerIsEntry(es[0]);
    MarkerIsEntry(es[1]);
    AllEntries(es);
    GoodThenEmpty(c, inline);
  }

  lemma GoodThenEmpty(c: Connection, inline: bool)
    requires c.delay.Some? && Trimmed(c.delay.value)
    ensures ExtractAll([Box(c, inline), EmptyBox]) == Failure(IndexError)
  {
    var es := [Box(c, inline), EmptyBox];
    BoxRoundTrip(c, inline);
    assert ExtractConnection(EmptyBox) == Failure(IndexError);
    assert ExtractConnection(es[0]).Success? && ExtractConnection(es[1]).Failure?;
    var r := ExtractAll(es);
    assert r.Failure?;
    var i :| 0 <= i < |es| && ExtractConnection(es[i]) == Failure(r.error)
      && forall j :: 0 <= j < i ==> ExtractConnection(es[j]).Success?;
    assert i == 1;
  }
}
