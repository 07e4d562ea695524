# Traffic-Puller journey extraction in Dafny

Traffic-Puller fetches the results page of a Slovak timetable site for a pair
of stations and reads journey records out of it. This project models the
part of `connections.py` that works on the page once it is parsed:

- `parse_html_to_connections`: a pre-order walk of the element tree to the
  first element whose `class` is exactly `connection-list`, then one
  `Connection` per direct child whose `id` contains `connectionBox`, in order.
- `Connection.__init__`: fields read from fixed child-index paths. It includes
  the two owner layouts, the delay-bubble rule, and the last-match-wins scan
  of each station-detail block.
- The station-equality guard of `grab_connection`.

The modules follow that structure:

- `Wrappers` holds `Option` and `Result`.
- `Html` holds the parsed tree and the ElementTree operations the code uses:
  `get`, `attrib[...]`, indexing a child, and `iter()`.
- `PyStr` holds Python's `str.strip`, `str.isspace` and the substring `in`.
  They use Python's whitespace set.
- `Connections` holds `Connection.__init__`.
- `Extraction` holds `parse_html_to_connections` and `grab_connection`.
- `Layout` builds pages from records and proves that extraction reads them
  back.

The Python exceptions become values of a `Result`:

- `IndexError` is a missing child index.
- `KeyError("title")` is a title node without a `title` attribute.
- `AttributeError` is `strip()` called on a `None` delay text.

Fields are read in the source's order, so the error is the one Python would
raise first.

Two behaviours follow the code where a reader might expect otherwise: one
might expect a blank delay to be stored as `None`, and a malformed entry to
be skipped.

- **The delay is never `None`.** The text is stripped before the
  `isspace()` test (connections.py:120-123), and a stripped string never
  passes that test. So a blank bubble gives `""`, not `None`. The
  `if IsSpace(d)` branch is kept as written, even though it cannot be taken
  (`PyStr.StrippedNotSpace`).
- **One bad entry fails the whole call.** The exception raised by
  `Connection(child_element)` (connections.py:75-77) is not caught. The
  model therefore returns the first failing entry's error instead of
  skipping the entry.

## Model

| member | source | states |
|---|---|---|
| Html.Get | connections.py:141-142 | `get(name)` yields the attribute iff it is present, and `None` otherwise |
| Html.GetOr | connections.py:72 | `get(name, default)` yields the attribute when present and the default otherwise |
| Html.Attrib | connections.py:104 | `attrib[name]` succeeds exactly when the attribute exists and yields it; otherwise it fails with `KeyError(name)` |
| Html.Child | connections.py:92-98 | `element[i]` succeeds exactly when the i-th child exists; otherwise it fails with `IndexError` |
| Html.AtValid | connections.py:88 | a chained index lookup such as `html_element[0][0][1]` succeeds iff every index on the path exists, and then it finds the node at that path |
| Html.AtAppend | connections.py:100-102 | looking up `p` and then `q` from the node reached equals looking up `p + q`, both in the node found and in whether an index is missing |
| Html.PreOrderVisitsDescendants | connections.py:65 | `iter()` visits the element itself and every descendant at any depth |
| Html.PreOrderOnlyDescendants | connections.py:65 | `iter()` visits nothing but the element and its descendants |
| PyStr.Strip | connections.py:120 | the result of `strip()` has no whitespace at either end |
| PyStr.StripIsCore | connections.py:120 | `strip()` removes only whitespace, and only from the two ends |
| PyStr.StripUnique | connections.py:120 | whitespace around an already trimmed string is removed, and the string comes back unchanged |
| PyStr.StripTrimmed | connections.py:120 | a string without whitespace at its ends is left unchanged |
| PyStr.StripBlank | connections.py:120 | a string of whitespace only strips to the empty string |
| PyStr.StripIdempotent | connections.py:120 | stripping twice equals stripping once |
| PyStr.StrippedNotSpace | connections.py:120-123 | a stripped string never passes `isspace()`, so the `None` branch is dead |
| PyStr.Contains | connections.py:74 | the substring test holds iff the needle occurs at some position of the haystack |
| Extraction.MissingIdIsNoEntry | connections.py:72-74 | a child without an `id` reads as `""` and is never an entry |
| Extraction.FirstContainer | connections.py:65-69 | the search returns the first position at or after `k` whose class is exactly `connection-list`, and `None` iff there is none |
| Extraction.Container | connections.py:65-79 | the container used is the first one in pre-order, and there is none iff no visited node has that class |
| Extraction.FirstContainerIs | connections.py:65-69 | the search stops at the first container after the start, whatever follows it |
| Extraction.Positions | connections.py:71-74 | every listed position is in range and holds a child the test accepts |
| Extraction.PositionsIncreasing | connections.py:71 | the accepted positions are listed in strictly increasing order |
| Extraction.PositionsComplete | connections.py:71-74 | no accepted position is missed |
| Extraction.FilterInOrder | connections.py:71-77 | the filter yields exactly the children at the accepted positions, in that order |
| Extraction.EntriesInOrder | connections.py:71-77 | the entries are the children at the entry positions: one per child whose `id` contains `connectionBox`, none missed, in the children's order |
| Extraction.EntriesMembership | connections.py:71-74 | a child is selected iff its `id` contains `connectionBox`; other children are skipped |
| Extraction.ExtractAll | connections.py:71-77 | the list succeeds iff every entry extracts; it then has one record per entry in order; otherwise the error is that of the first failing entry |
| Extraction.ParseConnections | connections.py:55-81 | with no container the result is the empty list, not an error; every delay in a successful result is a stripped string |
| Extraction.ParseConnectionsMeaning | connections.py:71-77 | with a container, the call succeeds iff every entry extracts, and then it yields one record per entry, in order |
| Extraction.NoContainerNoConnections | connections.py:65-69 | if no node at any depth has class `connection-list`, the result is the empty list |
| Extraction.FirstContainerOnly | connections.py:79 | only the first container is read; later containers do not affect the result |
| Extraction.OneBadEntryFailsAll | connections.py:75-77 | one entry that fails to extract fails the whole call, with the error of an entry at or before it |
| Extraction.GrabDefault | connections.py:30 | without a connection type the query asks for `vlakbus`, trains and buses; equal stations are still refused |
| Extraction.GrabConnection | connections.py:41-54 | `StationsSame` is raised iff the two stations are equal, and then nothing is fetched; otherwise the page is what the fetch returns for the query |
| Connections.OwnerLayout | connections.py:108 | the inline layout is chosen iff the specs block's class is exactly `line-right-part reset` |
| Connections.Owner | connections.py:106-111 | the owner is `specs[0][0].text` in the inline layout and `title_container[3][0][0].text` otherwise; it fails with `IndexError` iff that path is missing |
| Connections.DelaySource | connections.py:115-118 | the delay text is the first child's when the bubble has children, and the bubble's own text otherwise |
| Connections.DelayIgnoresOwnText | connections.py:115-116 | a bubble with children ignores its own text: two such bubbles whose first children carry the same text give the same delay |
| Connections.Delay | connections.py:113-123 | the delay fails with `AttributeError` iff the source text is `None`; otherwise it is a stripped string and never `None` |
| Connections.DelayIsCore | connections.py:113-120 | the delay is the source text with whitespace removed only from its two ends |
| Connections.BlankDelayIsEmpty | connections.py:120-123 | a blank bubble gives the empty string, not `None` |
| Connections.PaddedDelay | connections.py:113-123 | a padded text gives exactly the text inside the padding |
| Connections.StrippedClass | connections.py:141-144 | an absent or empty class reads as `None`; any other class is stripped |
| Connections.NameIgnoresTitle | connections.py:146-147 | an element whose stripped class is `name` sets the station name, and its title is ignored |
| Connections.PlatformTitleSetsPlatform | connections.py:148-149 | an element not classed `name` whose title is `nástupište` sets only the platform |
| Connections.RequestTitleSetsRequest | connections.py:150-151 | an element not classed `name` whose title is `na znamenie` sets only the on-request note |
| Connections.UnmarkedKeepsDetail | connections.py:146-151 | an element with none of the three markers changes no field |
| Connections.Record | connections.py:146-151 | one scan step overwrites only the field its element is marked for, with the element's text |
| Connections.LastMarkFound | connections.py:140-151 | the backwards search finds the last marked element, and finds none iff no element is marked |
| Connections.ScanReadsLastMark | connections.py:140-151 | each field after the scan is the text at the last mark, or `None` when there is none |
| Connections.ScanLastWins | connections.py:140-151 | after the scan, each field holds the text of the last element marked for it, and `None` when no element is marked |
| Connections.StationLastWins | connections.py:140-164 | the same for a station block's `iter()` traversal, the block itself included |
| Connections.LastMarkUnique | connections.py:140-151 | the last match for a field is unique |
| Connections.ReadHeader | connections.py:88-98 | departure time and date come from child 0 and its first child, and duration and distance from child 1's children; a missing index gives `IndexError` |
| Connections.ReadTitle | connections.py:102-111 | the title comes from the title node's `title` attribute, the id from its first child, and the owner from its layout; it succeeds iff that shape is present |
| Connections.ReadTrack | connections.py:125-131 | it succeeds iff both stops have a time and a station block; stop times come from `track[0][0]` and `track[1][0]`; departure details are scanned only in `track[0][1]`, arrival details only in `track[1][1]` |
| Connections.ReadRun | connections.py:113-131 | the delay comes from child 1 and the stops from child 2; it succeeds iff both are present and the delay text is not `None` |
| Connections.ReadDetails | connections.py:100-131 | the details block succeeds iff it is well shaped, and then every field comes from its fixed position |
| Connections.ExtractConnection | connections.py:87-164 | a successful extraction always stores a stripped string as its delay |
| Connections.ExtractConnectionShape | connections.py:87-131 | extraction succeeds exactly on entries with the full fixed layout |
| Connections.ExtractConnectionFields | connections.py:88-131 | on a well-shaped entry, every field is read from its fixed position under `box[0][0][1]` or `box[1][0][0]` |
| Layout.StationRoundTrip | connections.py:133-151 | a station block with one marked element per field scans back to that detail record |
| Layout.TitleRoundTrip | connections.py:102-111 | in either owner layout, the title container reads back title, id and owner |
| Layout.BoxRoundTrip | connections.py:87-164 | every record whose delay is a stripped string is read back unchanged from its entry, in both owner layouts |
| Layout.PageRoundTrip | connections.py:55-81 | a list of such records, laid out as entries of one container, parses back to the same list |
| Layout.EmptyEntrySpoilsPage | connections.py:75-77 | a good entry followed by an empty one yields no list, only the second entry's `IndexError` |

## Left out

- HTML parsing by `html5lib.parse` (connections.py:62): lenient HTML5 recovery in a foreign library. The model takes the parsed tree as its input.
- URL building with `urllib.parse.quote`, and the HTTP request (connections.py:44-54): library calls and network I/O. `Extraction.GrabConnection` takes the fetch as a function parameter.
- `save_html` and `read_saved_html` (connections.py:14-27): file I/O only.
- The `__str__`, `html` and `print` renderers and the `NODELAY` sentinel (connections.py:11, 166-253): presentation only. The `print` method uses the departure guards for the arrival platform and request outputs (connections.py:249-252). That belongs to rendering, not extraction.
- `main.py`: console orchestration. The `stations` table it imports is not part of this model.
- Extraction.ParseConnections: its own contract covers only the no-container case and the delay. The per-entry success, count and order statements are in `Extraction.ParseConnectionsMeaning`.
