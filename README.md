# WallE job scraper, modelled in Dafny

WallE (`wallE.py`) collects the job postings of Coursera's Greenhouse job
board. It reads the board's listing page and prefixes the root URL to every
href that contains `/coursera/jobs/` (`findJobs`). It then reads each posting and
builds a record of six fields (`parseJob`): title, location, description,
responsibilities, basic qualifications and preferred qualifications. Every
text it stores first passes through `normalize`, which composes the string
to Unicode NFC, drops every character outside ASCII and strips surrounding
whitespace.

The model has three modules plus a small module of shared wrappers:

- `TextNormalization` (text_normalization.dfy): `normalize`. It covers the
  ASCII filter, Python's `str.strip` with its full whitespace set, and the
  laws the result obeys: it is ASCII and trimmed, its fixed points are
  exactly the ASCII trimmed strings, and it is idempotent. Unicode NFC is a
  parameter `nfc`. The one fact the lemmas assume about it is that it leaves
  ASCII text unchanged (`NfcFixesAscii`).
- `LinkDiscovery` (link_discovery.dfy): `findJobs` over the hrefs of the
  listing page. It covers the root URL (`removesuffix("/coursera")`), the
  regular-expression search `/coursera/jobs/\d*`, and the list of job URLs
  in document order.
- `RecordExtraction` (record_extraction.dfy): `parseJob` over the lookups it
  makes on one page. The `defaultdict(str)` becomes the class `JobDict`.
  `ParseJob` assembles the record step by step, as the source does, reading
  each stored heading back and testing its Python truthiness. The method is
  proved equal to the function `Extract`. Lemmas about `Extract` state:
  - when a page fails;
  - which keys a record has, and in what order;
  - what each field holds;
  - that every stored text is ASCII and trimmed.

The record operations take the normaliser as a parameter `norm`. The record
wallE.py builds is the one for `norm == Normalizer(nfc)`, and
`ParsedRecordIsClean` states the corollary for that choice.

A Python exception ends `parseJob` in the source. Here it is a `Failure`
carrying a `ParseError`. The exceptions are: `.text` of a missing title or
location element, or navigation from a found heading to a sibling that is
not there.

wallE.py:47 composes the string to NFC, and wallE.py:48-49 then drop every
code point outside ASCII. So an accented letter that NFC composes into one
non-ASCII code point disappears instead of becoming its base letter: "é"
gives "" (`ComposedLetterIsDropped`). A letter and mark with no precomposed
form keep the base letter: "x" with a combining macron gives "x"
(`UncomposedMarkKeepsLetter`).

## Model

| member | source | states |
|---|---|---|
| TextNormalization.DropNonAscii | wallE.py:48-49 | the result is ASCII, and ASCII input is returned unchanged |
| TextNormalization.DropNonAsciiMembers | wallE.py:48-49 | a character is in the result exactly when it is in the input and is ASCII |
| TextNormalization.DropNonAsciiAppend | wallE.py:48-49 | dropping non-ASCII characters distributes over concatenation, so the kept characters keep their order |
| TextNormalization.IsSpace | wallE.py:53 | the characters `str.isspace` accepts, which `strip` removes: ASCII 0x09-0x0D and 0x1C-0x20, and the non-ASCII whitespace code points 0x85, 0xA0, 0x1680, 0x2000-0x200A, 0x2028, 0x2029, 0x202F, 0x205F and 0x3000 |
| TextNormalization.AsciiSpaceSet | wallE.py:53 | on ASCII, `str.strip` removes exactly tab, newline, vertical tab, form feed, carriage return, the four separators 0x1C-0x1F and space |
| TextNormalization.StripStart | wallE.py:53 | the first position at or after `i` that is not whitespace, or the end; everything skipped is whitespace |
| TextNormalization.StripEnd | wallE.py:53 | the last end position down to `lo` whose preceding character is not whitespace; everything cut off is whitespace |
| TextNormalization.Strip | wallE.py:53 | the result has no leading or trailing whitespace and is a slice of the input with only whitespace outside it |
| TextNormalization.StripUnique | wallE.py:53 | any slice with only whitespace outside it and no whitespace at its ends is what `strip` returns |
| TextNormalization.Normalize | wallE.py:35-55 | the result is pure ASCII and has no leading or trailing whitespace |
| TextNormalization.NormalizeFixesClean | wallE.py:35-55 | an ASCII string with no surrounding whitespace is returned unchanged |
| TextNormalization.NormalizeFixedPoints | wallE.py:35-55 | `normalize(s) == s` holds exactly when `s` is ASCII with no surrounding whitespace |
| TextNormalization.NormalizeIdempotent | wallE.py:35-55 | normalising twice gives the same string as normalising once |
| TextNormalization.ComposedLetterIsDropped | wallE.py:47-49 | "e" with a combining acute accent composes to "é", which the ASCII step then removes, leaving the empty string |
| TextNormalization.UncomposedMarkKeepsLetter | wallE.py:47-49 | when NFC leaves "x" and a combining macron apart, only the mark is dropped and the result is "x" |
| LinkDiscovery.RemoveSuffix | wallE.py:26 | with a non-empty suffix that ends the string, the result followed by the suffix is the string; otherwise the string is unchanged |
| LinkDiscovery.RootUrl | wallE.py:26 | a URL ending in "/coursera" loses exactly that suffix; any other URL is kept as it is |
| LinkDiscovery.RootUrlRemovesOnce | wallE.py:26 | only one "/coursera" is removed, even when the base itself ends in "/coursera" |
| LinkDiscovery.DefaultRootUrl | wallE.py:9-26 | the default board URL gives the root "https://boards.greenhouse.io" |
| LinkDiscovery.DigitRunEnd | wallE.py:31 | `\d*` is greedy: every character of the run is a digit and the one after it is not |
| LinkDiscovery.SearchFrom | wallE.py:31 | a match starts at the leftmost occurrence of the literal, with no occurrence before it, and ends after the greedy digit run; no match means no occurrence anywhere |
| LinkDiscovery.LinkMatches | wallE.py:31 | BeautifulSoup's `href=re.compile(...)` keeps a link when the search finds a match anywhere in the href |
| LinkDiscovery.LinkMatchesIff | wallE.py:31 | a link matches the pattern exactly when it contains "/coursera/jobs/" |
| LinkDiscovery.LinkExamples | wallE.py:31 | "/coursera/jobs/" and a link with digits and a query after it match; "/coursera/jobs" without the slash does not |
| LinkDiscovery.MatchingLinks | wallE.py:29-32 | every kept link is one of the page's links and matches the pattern |
| LinkDiscovery.MatchingPositions | wallE.py:29-32 | positions of matching links, each in range, strictly increasing |
| LinkDiscovery.MatchingPositionsComplete | wallE.py:29-32 | every position of a matching link is listed, so the positions are exactly the matching ones |
| LinkDiscovery.MatchingLinksAt | wallE.py:29-32 | the filtered links are the links at the matching positions, in the same order |
| LinkDiscovery.FindJobs | wallE.py:29-32 | one job URL per matching link |
| LinkDiscovery.FindJobsInOrder | wallE.py:29-32 | the `a`-th job URL is the root URL followed by the href of the `a`-th matching link in document order |
| LinkDiscovery.FindJobsAppend | wallE.py:29-32 | the job URLs of two consecutive parts of a page are those of the first part followed by those of the second |
| LinkDiscovery.MatchingLinksAppend | wallE.py:29-32 | the filter distributes over concatenation of the link list |
| LinkDiscovery.FindJobsSingle | wallE.py:29-32 | a single link gives one URL, root plus href, when it matches, and none otherwise |
| LinkDiscovery.FindJobsKeepsDuplicates | wallE.py:29-32 | a job link that appears twice yields the same URL twice; duplicates are not removed |
| RecordExtraction.NamesDistinct | wallE.py:78-128 | the six field names are distinct strings |
| RecordExtraction.Truthy | wallE.py:87 | Python truthiness of what a key holds, tested at wallE.py:87, 98, 111 and 126: `None`, "" and [] are false, and a found tag is true |
| RecordExtraction.DescriptionOf | wallE.py:85-89 | the Description field: the normalised text two siblings after the overview heading, or "" when there is no heading |
| RecordExtraction.ItemsOf | wallE.py:93-100 | a list field: the normalised texts of the `<li>` items after the heading, in order, or [] when there is no heading |
| RecordExtraction.NormalizeEach | wallE.py:94-97 | one output per item, in order, each the normalised item text |
| RecordExtraction.OrderedKeys | wallE.py:75-130 | the key order lists each key of the entries once and no other key, as a Python dict's insertion order does |
| RecordExtraction.OrderedKeysMeans | wallE.py:75-130 | under that invariant a key is listed exactly when it is an entry, and no key is listed twice |
| RecordExtraction.OverwriteKeepsOrder | wallE.py:85-128 | assigning to a key already present keeps the invariant with the order unchanged |
| RecordExtraction.PutKeepsOrder | wallE.py:78-128 | every assignment keeps the invariant: a new key is appended, an existing key keeps its place; `Valid()` is preserved |
| RecordExtraction.EmptyKeysOrdered | wallE.py:75 | the empty dictionary satisfies the key-order invariant |
| RecordExtraction.JobDict.constructor | wallE.py:75 | the dictionary starts with no entries and no keys, a state in which `Valid()` holds (`EmptyKeysOrdered`) |
| RecordExtraction.JobDict.Put | wallE.py:78-128 | assignment stores the value under the key; a new key goes to the end of the insertion order, an existing key keeps its place; `Valid()` is preserved |
| RecordExtraction.JobDict.Lookup | wallE.py:85-87 | reading a present key returns its value and changes nothing; reading a missing key inserts and returns the empty string, as `defaultdict(str)` does; `Valid()` is preserved |
| RecordExtraction.ExtractDescription | wallE.py:83-89 | succeeds unless the node two siblings after a found overview heading is missing, and a present node with empty text succeeds; then Description holds the normalised text, or "" without the heading, and no other entry changes |
| RecordExtraction.ExtractSection | wallE.py:91-128 | succeeds unless a found heading has no list after it; then the key holds the normalised item texts, or [] without the heading, and no other entry changes |
| RecordExtraction.Extract | wallE.py:75-130 | the record `parseJob` returns, or the exception that ends it, checked in source order: title, location, overview, then the three list sections |
| RecordExtraction.ParseJob | wallE.py:58-130 | assembling the record step by step in the dictionary gives exactly `Extract`: the same record, or the same error at the same step |
| RecordExtraction.ExtractFailsIff | wallE.py:77-128 | parsing fails exactly when the title or location is missing, or a found heading lacks the sibling its extraction reads |
| RecordExtraction.MissingTitleFails | wallE.py:78 | a page without a title always fails with `NoTitle` |
| RecordExtraction.ExtractKeys | wallE.py:75-130 | a record has exactly the six keys, distinct, inserted in the order Title, Location, Description, Responsibilities, Basic Qualifications, Preferred Qualifications |
| RecordExtraction.ExtractFields | wallE.py:77-128 | each field in terms of the page: normalised title and location; "" or the normalised overview text; [] or one normalised entry per list item |
| RecordExtraction.NormalizerCleansText | wallE.py:35-55 | every output of `normalize` is ASCII with no surrounding whitespace |
| RecordExtraction.ItemsAreClean | wallE.py:94-128 | a list field built with such a normaliser holds only clean texts |
| RecordExtraction.RecordIsClean | wallE.py:75-130 | a record built from clean texts holds only clean values |
| RecordExtraction.ExtractIsClean | wallE.py:77-128 | with any normaliser whose outputs are ASCII and trimmed, every value of a record is a string or a list of strings, each ASCII and trimmed |
| RecordExtraction.ParsedRecordIsClean | wallE.py:77-128 | the record built with `normalize` holds only ASCII, trimmed text |
| RecordExtraction.MissingPreferredOnlyEmptiesIt | wallE.py:115-128 | a missing "Preferred Qualifications" heading empties that field and leaves every other field as it would be with the section present |

## Left out

- HTTP requests (wallE.py:20, 69) are I/O. The listing page is given as its sequence of hrefs, and a job page as the results of its lookups.
- HTML parsing and tree navigation by BeautifulSoup are a foreign library. This covers `find`, `find_all`, `next_sibling`, `findNextSibling("ul")`, `.text`, and matching the heading patterns "Job Overview", "Responsibilities", "Basic Qualifications|Your Skills" and "Preferred Qualifications". A `JobPage` holds what each lookup returns, and `Heading.following` holds what navigation from a found heading reaches.
- NFC composition (wallE.py:47) is Unicode data. It is the parameter `nfc`, and the lemmas assume only that it leaves ASCII text unchanged.
- `main` (wallE.py:133-148) is orchestration and file I/O. It calls `parseJob` on every URL and writes `output.json`.
- LinkDiscovery.DigitRunEnd: it counts only ASCII digits. Python's `\d` also matches other Unicode decimal digits. This changes where a match ends, and so the `end` of the span `LinkDiscovery.SearchFrom` returns. It does not change whether a link matches (`LinkMatchesIff`).
- LinkDiscovery.SearchFrom: the `end` of its span can differ from Python's for a non-ASCII decimal digit after the literal, through `DigitRunEnd`.
- Python strings may hold lone surrogate code points, which a Dafny `char` cannot hold. Such strings are not modelled.
- The `encode("ascii", "ignore").decode("utf-8", "ignore")` pair is modelled as one filter that keeps ASCII characters. Decoding ASCII bytes never fails, so the second step has no effect.
- RecordExtraction.ParseJob: it takes the normaliser as a parameter rather than always calling `normalize`. `ParsedRecordIsClean` states the result for `normalize`.
- RecordExtraction.JobDict.Valid: `Put` and `Lookup` are proved to preserve it, and the empty dictionary satisfies it (`EmptyKeysOrdered`). `ParseJob` does not carry it from step to step: its key order is proved directly (`keys == JobKeys`), because tracking the invariant through each step makes that proof too costly for the verifier.
- The record's keys are the datatype `Key`, and `Name` gives each key's JSON text. The insertion order the JSON output follows is the `keys` sequence, not the map.
