# tangle, modelled in Dafny

tangle catalogues a directory of web pages. `tangle.py` walks the tree and
reads every page, text file, image and style sheet. It records a metadata
store: for each path, a map of keys such as `exists`, `title`, `linked`,
`included`, `inbound`, `has <role>` and `is <role>` to values. `format.py`
then reads that store and prints a contents page. The page groups the paths
by directory and kind and lists the entry points among the files found. An
HTML page is listed when nothing includes it. Any other file is listed when
nothing includes it and no page that is not archived links to it. A path that
some page calls `archived` or `chapter` is never listed. The page also
reports every path that was referred to but not found.

The model follows the program's structure:

- `References` (tangle.py:164-187) covers `normalise`, `reference`, `local` and `roles`.
- `StyleSheets` (tangle.py:213-228) covers the `css_links` scanner over style sheet text.
- `Hypertext` (tangle.py:94-130) covers the single pass of `hypertext` over a page's element stream.
- `Plain` (tangle.py:189-197) covers the title of a text file.
- `Graph` (tangle.py:9-74) holds the metadata store:
  - `store` and `append` are methods of a `Metadata` class whose `entries` field is the store.
  - The two loops of `tangle` are methods with loop invariants, proved against `Pass1Get`, `Pass2Get` and `TangledGet`. These functions say what every key of every entry reads after each step.
  - Lemmas then pin down, key by key, what `tangle` leaves behind.
- `Ordering` models the string order of Python's `sorted`, and `Sort` sorts a list of distinct strings by it.
- `Grouping` models `groups` (format.py:28-34).
- `Escape` models `encode` (format.py:36-38).
- `Pathnames` models `directory`, `extension`, `basename`, `endswith` and `count`.
- `Report` models `contents` and `format` (format.py:40-104). The page is a sequence of `Line`s: NOT FOUND lines, directory headings, kind headings and list items.

`Local`, `Less`, `KeyName` and `Extension` are plain predicates and functions. They have no row of their own; the lemmas below state their properties.

## Model

| member | source | states |
|---|---|---|
| References.Collapse | tangle.py:164-167 | replacing each run of space, tab, CR, LF and form feed by one space leaves no such character other than the space and no two spaces together; the result starts with a space exactly when the text starts with a run, and otherwise with the text's first character |
| References.CollapseInk | tangle.py:167 | the substitution keeps every character that is not whitespace, in order |
| References.CollapseSnoc | tangle.py:167 | read from the back, a run character right after another adds nothing, the first character of a run adds one space, and any other character is kept; with the empty case this determines the substitution |
| References.CollapseFixed | tangle.py:167 | text already collapsed is unchanged by the substitution |
| References.Strip | tangle.py:168 | `strip()` is the slice that starts right after the leading whitespace (Python 2 unicode whitespace) and has only whitespace after it; neither of its ends is whitespace; it is empty exactly when the text is all whitespace; it keeps the non-whitespace characters in order and keeps collapsed text collapsed |
| References.Normalise | tangle.py:166-168 | `normalise` yields collapsed text with no whitespace at either end, holding the input's non-whitespace characters in order, and empty exactly when the input has none |
| References.NormaliseIdempotent | tangle.py:166-168 | normalising twice gives what normalising once gives |
| References.Split | tangle.py:187 | `split(c)` yields at least one piece, no piece holds `c`, and joining the pieces with `c` gives the text back |
| References.SplitPiecesNonEmpty | tangle.py:185-187 | text that neither starts nor ends with `c` and never doubles it splits into non-empty pieces |
| References.BeforeHash | tangle.py:177 | `split('#', 1)[0]` is the prefix up to the first `#`, or the whole text |
| References.Reference | tangle.py:170-177 | `reference` gives no URI iff neither `href` nor `src` is a non-empty string, and a URI it gives holds no `#` |
| References.ReferenceHrefWins | tangle.py:171-175 | a non-empty `href` decides the result: `src` does not matter |
| References.ReferenceFallsBackToSrc | tangle.py:171-175 | without a non-empty `href`, the result is what `src` alone gives, or none without `src` |
| References.ReferenceWithoutBase | tangle.py:176 | with an empty or missing base, `urljoin` is not called and the URI is a prefix of the normalised `href` or `src` |
| References.Resolve | tangle.py:176 | with an empty or missing base the reference is used unchanged; otherwise it is `urljoin` of the base and the reference |
| References.Roles | tangle.py:184-187 | the tokens of `rel` are exactly the space-separated pieces of the normalised value, each non-empty and space-free; there are none iff `rel` is missing or blank |
| StyleSheets.CommentClose | tangle.py:213 | the end of the first `*/` at or after a position, or none when no `*/` follows |
| StyleSheets.Comment | tangle.py:213 | a comment match starts with `/*` and ends at the first `*/` after it; there is none when no `*/` follows the `/*` |
| StyleSheets.QuoteEnd | tangle.py:215-218 | the closing quote found ends a body in which every backslash escapes a character other than a newline and no bare quote occurs |
| StyleSheets.QuotedUrl | tangle.py:215-216 | a quoted url match is `url(`, whitespace, the quote, a well-formed body that is the payload, the quote, whitespace and `)` |
| StyleSheets.Quoted | tangle.py:217-218 | a quoted string match starts and ends with the quote around a well-formed body, and there is none unless the text starts with the quote |
| StyleSheets.BareUrl | tangle.py:214 | the unquoted url form consumes input and captures a non-empty payload without `)`, taken from the text |
| StyleSheets.Match | tangle.py:220-221 | a match of the alternation at the front of the text consumes at least one character, and a payload it captures stands in the text |
| StyleSheets.Payloads | tangle.py:221 | every payload `findall` returns stands in the style sheet text |
| StyleSheets.Yield | tangle.py:224-228 | a link is yielded iff some payload is non-empty, has no `:`, and resolves to it after `normpath` and `urljoin` with the base; there are never more links than payloads |
| StyleSheets.CssLinks | tangle.py:223-228 | the links of a style sheet are exactly its kept payloads, normalised and resolved against the base, and there are never more links than payloads |
| StyleSheets.CommentSkipped | tangle.py:213 | a complete comment is consumed whole, so a `url(` inside it yields nothing |
| StyleSheets.StringSkipped | tangle.py:217-218 | a complete quoted string is consumed whole, so a `url(` inside it yields nothing |
| StyleSheets.SingleQuotedUrlYields | tangle.py:216 | `url('x')` yields exactly `x`, and scanning resumes after it |
| StyleSheets.DoubleQuotedUrlYields | tangle.py:215 | `url("x")` yields exactly `x`, and scanning resumes after it |
| StyleSheets.BareUrlYields | tangle.py:214 | `url(x)` with an unquoted `x` yields exactly `x` |
| StyleSheets.BlankUrlYieldsOneSpace | tangle.py:214 | `url( )` with only whitespace inside yields that whitespace's last character, because the pattern backtracks |
| StyleSheets.Unmatched | tangle.py:221 | text where no alternative matches at any position is passed over |
| StyleSheets.PayloadsAfterText | tangle.py:221 | unmatched text followed by `url('x')` yields `x` first |
| StyleSheets.UrlAfterText | tangle.py:223-228 | the first link of such a sheet is `x` resolved against the base (when `x` is kept), followed by the links of the rest |
| Hypertext.Step | tangle.py:104-128 | an element only adds links, inclusions and role pairs; a new link is a local URI of an `a` or `area`; only a `title` element changes the title, to its text; only a `base` element changes the base |
| Hypertext.ScanTo | tangle.py:104-128 | after `i` elements every link is local |
| Hypertext.ScanTitle | tangle.py:105-106 | after `i` elements the title is set iff a `title` element was among them, and then it is the text of one of them |
| Hypertext.Extract | tangle.py:94-130 | every link of the document is local, and the title is set iff a `title` element precedes the cut-off, to the text of one of them |
| Hypertext.Cutoff | tangle.py:111-113 | the pass stops at the first `meta` with a truthy `data-catalogue`, and no earlier element stops it |
| Hypertext.ReadHypertext | tangle.py:94-130 | the loop over the element stream returns the document of the pass up to the cut-off |
| Hypertext.LinksComplete | tangle.py:120-124 | every local URI of an `a` or `area` before the cut-off is a link |
| Hypertext.LinksSound | tangle.py:120-124 | every link comes from some local `a` or `area` before the cut-off |
| Hypertext.InclusionsComplete | tangle.py:115-125 | every local URI of an including element, and every link of a `style` element, before the cut-off is an inclusion |
| Hypertext.InclusionsSound | tangle.py:115-125 | every inclusion comes from some including element or `style` element before the cut-off |
| Hypertext.RolesComplete | tangle.py:127-128 | every `rel` token of a local linking or including element gives a role pair on its URI |
| Hypertext.RolesSound | tangle.py:127-128 | every role pair comes from a `rel` token of such an element |
| Hypertext.RolesReferenced | tangle.py:120-128 | every role target is a local URI that is also a link or an inclusion |
| Hypertext.StandardRolePairs | tangle.py:127-128 | the pairs of an element are its URI with each token of `roles(rel)` |
| Hypertext.ExtractRolesReferenced | tangle.py:94-130 | in the document `hypertext` returns, every role target is a local link or inclusion |
| Hypertext.TitleIsLast | tangle.py:105-106 | the title is the text of the last `title` element seen |
| Hypertext.ScanPrefix | tangle.py:104 | the state after `i` elements depends on those elements only |
| Hypertext.CutoffIgnoresRest | tangle.py:111-113 | elements after a stopping `meta` change nothing |
| Hypertext.BaseCleared | tangle.py:108-109 | a `base` element without `href` or `src` clears the base, so later URIs are not joined |
| Plain.StripIn | tangle.py:195 | `strip(chars)` leaves neither end in `chars`, keeps the middle in place, and is empty only when every character is in `chars` |
| Plain.StripInIdempotent | tangle.py:195 | stripping twice gives what stripping once gives |
| Plain.PlainTitle | tangle.py:189-197 | an empty file has no title; otherwise the title is `strip('#/ \r\n')` of the first line, with neither end in those characters, and it is empty exactly when every character of the line is one of them |
| Graph.KeyNameInjective | tangle.py:40-41 | distinct keys have distinct names, so `has %s` and `is %s` never collide with each other or with the fixed keys |
| Graph.Stored | tangle.py:14-16 | `store` adds the entry if needed, sets the one key and changes nothing else |
| Graph.Appended | tangle.py:18-21 | `append` extends the key's list (from empty) at its end and changes nothing else |
| Graph.Metadata.constructor | tangle.py:9 | the metadata starts empty |
| Graph.Metadata.Put | tangle.py:14-16 | `store` on the metadata object leaves exactly `Stored` of the old metadata |
| Graph.Metadata.Append | tangle.py:18-21 | `append` on the metadata object leaves exactly `Appended` of the old metadata |
| Graph.HasStored | tangle.py:40 | storing `has t` for every token sets exactly those keys of the page's entry |
| Graph.IsStored | tangle.py:41 | storing `is t` on every target sets exactly those keys and adds the targets' entries |
| Graph.RolesStored | tangle.py:37-41 | the role loop's outcome does not depend on the order of the pairs: `has` on the page and `is` on each target |
| Graph.Metadata.PutRoles | tangle.py:37-41 | the role loop on the metadata object leaves exactly `RolesStored` |
| Graph.EdgesStored | tangle.py:55-57 | an edge loop marks every target and appends the source once to each target's `inbound`, whatever the set's order |
| Graph.Metadata.PutEdges | tangle.py:68-74 | an edge loop on the metadata object leaves exactly `EdgesStored` and keeps every `inbound` a list |
| Graph.FileKinds | tangle.py:31-57 | a name is read as a page iff its extension is `html`, as text iff `txt`, as an image iff `png` or `jpg`, as a style sheet iff `css`, and not read otherwise |
| Graph.ExtAfterLastDot | tangle.py:31 | `name.split('.')[-1]` has no dot and is the whole name or the text after one of its dots |
| Graph.TitleOnly | tangle.py:45-51 | a text file's or image's branch stores its title and nothing else |
| Graph.PageFirst | tangle.py:33-43 | a page's branch of the first loop stores its title and its role keys |
| Graph.SheetFirst | tangle.py:53-57 | a style sheet's branch marks each inclusion `included` and appends the sheet to its `inbound` |
| Graph.VisitFirst | tangle.py:29-57 | one step of the first loop changes each key as `Visit1Mark` says |
| Graph.VisitSecond | tangle.py:59-74 | one step of the second loop skips pages marked `is archived` and otherwise records the page's links and inclusions |
| Graph.FirstPass | tangle.py:29-57 | after the first loop every key of every entry reads `Pass1Get`, and every `inbound` is a list |
| Graph.SecondPass | tangle.py:59-74 | after the second loop every key reads `TangledGet`, and the entries are those of `In2` |
| Graph.Tangle | tangle.py:23-74 | the metadata `tangle` builds has exactly the entries of `In2`, and each key reads `TangledGet` |
| Graph.Pass2Keeps | tangle.py:59-74 | the second loop writes only `linked`, `included` and `inbound` |
| Graph.Pass1Exists | tangle.py:29-30 | after `i` names, `exists` is set exactly on the names visited |
| Graph.ExistsMarked | tangle.py:29-30 | after `tangle`, `exists` is True exactly for the files found |
| Graph.Pass1Title | tangle.py:33-51 | after `i` names, the title is set exactly for the pages, text files and images visited, to their reader's title |
| Graph.TitleStored | tangle.py:33-51 | after `tangle`, a found page, text file or image has its reader's title, and no other path has one |
| Graph.Pass1Is | tangle.py:37-41 | after `i` names, `is role` is set on `n` iff some page visited has the pair `(n, role)` |
| Graph.IsMarked | tangle.py:37-41 | after `tangle`, `is role` is set iff some page found names `n` with that role, and then `n` has an entry |
| Graph.In1Grows | tangle.py:14-21 | an entry, once made, stays through the first loop |
| Graph.In2Keeps | tangle.py:59-74 | an entry made by the first loop is still there after the second |
| Graph.Pass1Has | tangle.py:40 | after `i` names, `has role` is set exactly on the visited pages with a pair of that role |
| Graph.HasMarked | tangle.py:40 | after `tangle`, `has role` is set exactly on found pages with a pair of that role |
| Graph.ArchivedRead | tangle.py:63-65 | the second loop reads `is archived` on a page iff some page found calls it `archived` |
| Graph.Pass1Unlinked | tangle.py:29-57 | the first loop never sets `linked` |
| Graph.Pass2Linked | tangle.py:68-70 | the second loop sets `linked` on `t` iff an unskipped page links to `t` |
| Graph.LinkedMarked | tangle.py:68-70 | after `tangle`, `linked` is set iff some page that is not archived links to it |
| Graph.Pass1Included | tangle.py:55-56 | the first loop sets `included` iff some style sheet includes the path |
| Graph.Pass2Included | tangle.py:72-73 | the second loop sets `included` iff an unskipped page includes the path, or keeps what was there |
| Graph.IncludedMarked | tangle.py:55-74 | after `tangle`, `included` is set iff a style sheet or an unarchived page includes the path |
| Graph.Pass1Inbound | tangle.py:55-57 | the first loop's `inbound` lists the including style sheets in the order found |
| Graph.Pass2Inbound | tangle.py:68-74 | the second loop appends each unskipped page once per link and once per inclusion, in order |
| Graph.InboundListed | tangle.py:55-74 | after `tangle`, `inbound` is the sheets that include the path, then the pages that link to or include it, or absent when there are none |
| Graph.ListsCountEdges | tangle.py:55-74 | the two lists together have one name per edge into the path |
| Graph.InboundCountsEdges | tangle.py:18-21 | the `inbound` list has exactly one name per edge into the path |
| Graph.RoleTargetWithoutInbound | tangle.py:37-41 | a path that is not on disk, is the target of a role pair, and has no edge from an unskipped page or sheet has an entry without `exists` or `inbound` |
| Ordering.LessIrreflexive | format.py:92-93 | no string sorts before itself |
| Ordering.LessTransitive | format.py:92-93 | the string order is transitive |
| Ordering.LessTotal | format.py:92-93 | any two different strings are ordered one way or the other |
| Ordering.LessAsymmetric | format.py:92-93 | two strings are never each before the other |
| Ordering.Insert | format.py:92-93 | inserting into an ascending list keeps it ascending, adds the element and keeps the others |
| Ordering.SortedSet | format.py:33 | the sorted list of a set is ascending and has exactly the set's elements |
| Ordering.AscendingUnique | format.py:33 | two ascending lists with the same elements are equal, so `sorted` has one answer |
| Ordering.Sort | format.py:92-93 | `sorted` of a list of distinct strings is the sorted list of its elements |
| Grouping.Filter | format.py:30-32 | a bucket is never longer than the input and holds exactly the elements with that key |
| Grouping.Buckets | format.py:29-32 | the `setdefault`/`append` loop makes one bucket per key that occurs, holding that key's elements in input order |
| Grouping.Groups | format.py:28-34 | `groups` yields each key with its bucket, in ascending key order |
| Grouping.GroupsAscending | format.py:33-34 | the keys come out strictly ascending |
| Grouping.GroupsPartition | format.py:28-34 | every element is in its own key's group and in no other; groups hold nothing else, and none is empty |
| Grouping.FilterInOrder | format.py:30-32 | a group is the subsequence of its key's elements: the positions of that key, increasing, and no others |
| Escape.ReplaceChar | format.py:37-38 | replacing `c` by text without `c` leaves no `c`, and text without `c` is unchanged |
| Escape.Encode | format.py:36-38 | the encoding holds no `<` |
| Escape.EncodeEscapes | format.py:36-38 | `encode` escapes each character on its own: `&` becomes `&amp;`, `<` becomes `&lt;`, and an `&` it wrote is never escaped again |
| Escape.UndoLess | format.py:38 | replacing `&lt;` by `<` in an encoding leaves the text with only `&` escaped |
| Escape.UndoAmpersand | format.py:37 | replacing `&amp;` by `&` then gives the text back |
| Escape.EncodeRoundTrip | format.py:36-38 | decoding `&lt;` and then `&amp;` gives back the text that was encoded |
| Pathnames.Directory | format.py:7-8 | `dirname` is a prefix of the path no longer than the text up to its last `/`, with trailing slashes dropped unless that text is all slashes, in which case it is that text; it is empty only when the path has no `/` |
| Pathnames.DirectoryOfJoin | format.py:7-8 | a name in directory `d` has directory `d` |
| Pathnames.DirectoryOfName | format.py:7-8 | a name without `/` has directory `''`, which the page shows as `.` |
| Pathnames.Basename | format.py:61 | `basename` is the suffix of the path after its last `/`: it holds no `/`, and it is the whole path or is preceded by a `/` |
| Pathnames.ExtensionText | format.py:25-26 | the text after the last dot of the last component, with no dot or `/`, or `''` when that component has no dot after a non-dot |
| Pathnames.ExtensionTextOfJoin | format.py:25-26 | `stem.x` in any directory has extension text `x` |
| Pathnames.ExtensionTextWithoutDot | format.py:25-26 | a name without a dot, in any directory, has no extension text |
| Pathnames.ExtensionTextOfDotName | format.py:25-26 | a name whose only dots lead it, such as `.profile`, has no extension text |
| Pathnames.KindIn | format.py:11-26 | `kinds.get(e, 'other')` is the kind of the entry for `e`, or `other` when there is none |
| Pathnames.ExtensionWithoutSuffix | format.py:26 | a name without an extension, such as `README` or `.profile`, is of kind `other` |
| Pathnames.Count | format.py:88 | `count(c)` is zero iff `c` does not occur |
| Pathnames.CountAppend | format.py:88 | the count over a concatenation is the sum of the counts |
| Pathnames.CountSingle | format.py:88 | one character counts once when it is `c` and not at all otherwise |
| Report.JoinNames | format.py:65 | `', '.join` of no names is empty, and of one name is that name |
| Report.JoinNamesAppend | format.py:65 | joining two non-empty lists gives their joins with one `, ` between them |
| Report.ItemOf | format.py:59-62 | a listed path's item links to the path, or to `.` for the empty path; its text is the encoded title when there is one, else the encoded basename, else `.`; it is non-empty and holds no `<` |
| Report.Decide | format.py:46-66 | a path is skipped iff it ends in `.DS_Store`; otherwise it is NOT FOUND iff it does not exist, and then the page prints the encoded path and the encoded list of pages it is from |
| Report.DecideAsWritten | format.py:46-66 | the loop body as written raises exactly for a path that is not a `.DS_Store` file, does not exist, and has no `inbound` list |
| Report.FromAsWritten | format.py:65 | `', '.join` of `inbound` raises exactly when the entry has no `inbound` list |
| Report.DecideAgrees | format.py:46-66 | the code as written agrees with `Decide` whenever it does not raise, and raises exactly on a NOT FOUND path without `inbound` |
| Report.MissingAfterTangle | format.py:64-65 | on metadata `tangle` built, a path is NOT FOUND iff it is not on disk, and its `from` list is the sheets and then the pages that refer to it |
| Report.ListedAfterTangle | format.py:48-58 | on metadata `tangle` built, a path is listed iff it is on disk, nothing includes it, it is a page or no unarchived page links to it, and no page calls it archived or a chapter |
| Report.RoleTargetRaises | format.py:64-65 | a missing role target with no edge from a page or sheet that was read makes the code as written raise; `Decide` reports it from no page |
| Report.ChapterOnlyRaises | format.py:64-65 | an entry holding only `is chapter` makes the code as written raise |
| Report.GoneChapterRaises | format.py:64-65 | the entry of `gone.html` in the example below makes the code as written raise |
| Report.Listing | format.py:44-66 | one kind's paths give only NOT FOUND lines and items, in that order |
| Report.ListKind | format.py:44-66 | the loop over one kind's paths returns exactly `Listing` |
| Report.KindBlocks | format.py:43-69 | every kind kept in `things` has at least one item, and its lines are all items |
| Report.ListKinds | format.py:43-69 | the loop over the kinds returns exactly `KindBlocks` |
| Report.Headings | format.py:71-81 | a directory with something to list gets its heading and then each kind's heading followed by its items; otherwise nothing |
| Report.ListDirectory | format.py:41-81 | one directory's lines are its NOT FOUND lines, then its headings and items |
| Report.ListDirectories | format.py:41-81 | the loop over the directories returns the lines of each directory in turn |
| Report.Contents | format.py:40-81 | `contents` prints the lines of its names grouped by directory and kind |
| Report.Layers | format.py:84-93 | names with fewer than two `/` go to `shallow`, the others to `deep`, each sorted ascending |
| Report.Format | format.py:83-104 | `format` prints the contents of the shallow names, then those of the deep names |
| Report.FlattenHeaded | format.py:74-81 | every kind heading is followed by an item |
| Report.DirHeaded | format.py:69-81 | in one directory's lines, each heading opens what follows it |
| Report.ContentsHeaded | format.py:40-81 | in `contents`' lines, each heading opens what follows it |
| Report.ListingReports | format.py:44-66 | one kind's NOT FOUND lines and items are exactly the lines of its shown paths |
| Report.KindBlocksReport | format.py:43-69 | the lines of the kinds of one directory are exactly the lines of their shown paths |
| Report.DirReport | format.py:41-81 | a directory's lines are exactly the lines of its shown paths, with headings |
| Report.ContentsFromReport | format.py:41-81 | the lines of all directories are exactly the lines of their shown paths |
| Report.ContentsReport | format.py:40-81 | `contents` prints a line for every shown name, and no item or NOT FOUND line that is not one, and each heading opens something |
| Report.FormatReport | format.py:83-104 | the page has a line for every shown path of the metadata, every item and NOT FOUND line is such a path's line, and every heading opens something |

## Left out

- Walking the directory (`filenames`, `os.walk`, skipping `.git`, `normpath` of the walked paths) is not modelled. `Graph.Tangle` takes the list of names found.
- Reading files is not modelled. What each reader returned for a file is a parameter (`parsed`). This covers the html5lib parse into an element stream (`html5`, `text`), opening a text file, and running `exiftool` for an image's `Document Name`.
- `urlparse.urljoin` and `os.path.normpath` are function parameters, not definitions. The one case of `urljoin` the model uses directly is that an empty base returns the reference unchanged.
- Printing is modelled as a sequence of `Line`s. The fixed preamble of `format` (the doctype, title, meta and stylesheet lines), the `<ul>`/`</ul>` lines and the blank lines are not.
- `json.dump`/`json.load`, `main` and the command-line argument are not modelled. `Report.Format` takes the metadata as a map.
- Report.ItemOf: does not model the UTF-8 encoding of the title and the cut to its first 128 bytes (format.py:60-61). Strings are sequences of characters, and the byte cut can split a character.
- Report.Decide: requires the path to be in the metadata. `format` only passes names taken from the metadata itself, so the `KeyError` of a missing path cannot occur.
- A `title` value that is not a string or None, which would make `.encode` fail, cannot arise here: `tangle` only stores titles.
- The order in which a Python set is iterated is not modelled. The model proves that the outcome of every loop over a set does not depend on that order (`Graph.RolesStored`, `Graph.EdgesStored`).
- A page's title is the raw `text(element)` of its last `title` element (tangle.py:105-106); its whitespace is not collapsed.
- Report.ItemOf: does not model the `UnicodeDecodeError` of format.py:61 for a listed path without a title whose basename has a non-ASCII character. There `path` has just been encoded to a byte string, so `.encode('utf-8')` of its basename first decodes it as ASCII and fails; the model returns the item.
- Graph.Tangle: does not model the split between byte-string and unicode keys. `filenames` yields byte-string names (tangle.py:79-82) while the URIs read from pages are unicode, so in Python 2 a file whose name has a non-ASCII character and a link to it are two different keys of `metadata`; the model has one string type and treats them as one key.

## Findings

| source | as written | input that shows it | evidently intended | confidence | as-written member | corrected member |
|---|---|---|---|---|---|---|
| format.py:64-65 | `', '.join(metadata[path].get('inbound'))` raises `TypeError` for a missing path whose entry has no `inbound` | `index.html` has `<a rel="archived" href="old.html">`; `old.html` has `<a rel="chapter" href="gone.html">`; `gone.html` does not exist. The second loop skips the archived `old.html`, so the entry of `gone.html` holds only `is chapter` | report `gone.html` NOT FOUND with an empty `from` list | not executed | Report.DecideAsWritten (shown by Report.RoleTargetRaises and Report.GoneChapterRaises) | Report.Decide (with Report.MissingAfterTangle) |
