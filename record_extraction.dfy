/**
 * Record assembly (`parseJob` in wallE.py). The job page is not fetched or
 * parsed here: each document lookup `parseJob` makes is given as its result.
 * The operations take the text normaliser as a parameter `norm`; the record
 * wallE.py builds is the one for `norm == Normalizer(nfc)`, that is, for
 * `normalize`, and the lemmas at the end state what that choice adds.
 */
module RecordExtraction {
  import opened Wrappers
  import opened TextNormalization

  /** The keys `parseJob` assigns, which are the only keys its record ever holds. */
  datatype Key = Title | Location | Description | Responsibilities | BasicQualifications | PreferredQualifications

  /** The key's text, as it appears in the record and in the JSON output. */
  function Name(k: Key): string {
    match k
    case Title => "Title"
    case Location => "Location"
    case Description => "Description"
    case Responsibilities => "Responsibilities"
    case BasicQualifications => "Basic Qualifications"
    case PreferredQualifications => "Preferred Qualifications"
  }

  /** The keys of an extracted record, in the order `parseJob` first assigns them. */
  const JobKeys: seq<Key> :=
    [Title, Location, Description, Responsibilities, BasicQualifications, PreferredQualifications]

  /** The six key names are different strings, so the record has six distinct JSON keys. */
  lemma NamesDistinct(k: Key, k': Key)
    ensures Name(k) == Name(k') ==> k == k'
  {
    assert |Name(k)| == |Name(k')| ==> k == k';
  }

  /**
   * A section heading that the document search found, with what navigating
   * from it finds: `None` when the sibling it reads does not exist.
   */
  datatype Heading<T> = Heading(following: Option<T>)

  /**
   * The results of the lookups `parseJob` makes, in its order:
   * - title, location: the text of the element of class `app-title` or
   *   `location`, `None` when there is no such element;
   * - overview: the tag whose text matches `Job Overview`, `None` when there
   *   is none; what follows it is the text two siblings further on;
   * - responsibilities, basicQualifications (`Basic Qualifications|Your
   *   Skills`), preferredQualifications: the heading tag, `None` when there is
   *   none; what follows it is the texts of the `<li>` elements of its next
   *   `<ul>` sibling, in document order.
   */
  datatype JobPage = JobPage(
    title: Option<string>,
    location: Option<string>,
    overview: Option<Heading<string>>,
    responsibilities: Option<Heading<seq<string>>>,
    basicQualifications: Option<Heading<seq<string>>>,
    preferredQualifications: Option<Heading<seq<string>>>)

  /** A value stored under a key of the record being assembled. */
  datatype Value =
    | Str(text: string)
    | StrList(items: seq<string>)
    | NoneValue
    | OverviewTag(overview: Heading<string>)
    | SectionTag(section: Heading<seq<string>>)

  /** Python truthiness of a stored value: `None` and empty strings and lists are false, a tag is true. */
  predicate Truthy(v: Value) {
    match v
    case Str(t) => t != []
    case StrList(items) => items != []
    case NoneValue => false
    case OverviewTag(_) => true
    case SectionTag(_) => true
  }

  /** What `soup.find` stores for the overview heading. */
  function OverviewFound(h: Option<Heading<string>>): Value {
    if h.None? then NoneValue else OverviewTag(h.value)
  }

  /** What `soup.find` stores for a list section heading. */
  function SectionFound(h: Option<Heading<seq<string>>>): Value {
    if h.None? then NoneValue else SectionTag(h.value)
  }

  /**
   * The exception that ends `parseJob`: `.text` of a missing title or location
   * element, or navigation from a heading to a sibling that is not there.
   */
  datatype ParseError = NoTitle | NoLocation | NoOverviewText | NoList(key: Key)

  /** A plain dictionary: its entries and its keys in insertion order. */
  datatype Dict = Dict(entries: map<Key, Value>, keys: seq<Key>)

  /** A heading was found but the sibling its extraction reads is missing. */
  predicate Stranded<T>(h: Option<Heading<T>>) {
    h.Some? && h.value.following.None?
  }

  /** The `Description` field: empty without the heading, else the normalised text. */
  function DescriptionOf(norm: string -> string, h: Option<Heading<string>>): string
    requires !Stranded(h)
  {
    if h.None? then "" else norm(h.value.following.value)
  }

  /** A list field: empty without the heading, else the normalised item texts. */
  function ItemsOf(norm: string -> string, h: Option<Heading<seq<string>>>): seq<string>
    requires !Stranded(h)
  {
    if h.None? then [] else NormalizeEach(norm, h.value.following.value)
  }

  /** `[normalize(tag.text) for tag in ...]`: each item normalised, in order. */
  function NormalizeEach(norm: string -> string, items: seq<string>): (r: seq<string>)
    ensures |r| == |items|
    ensures forall k :: 0 <= k < |r| ==> r[k] == norm(items[k])
  {
    if items == [] then []
    else [norm(items[0])] + NormalizeEach(norm, items[1..])
  }

  /** The six-key dictionary `parseJob` returns, with its keys in assignment order. */
  function Record(
    title: string, location: string, description: string,
    responsibilities: seq<string>, basic: seq<string>, preferred: seq<string>): Dict
  {
    Dict(map[
      Title := Str(title),
      Location := Str(location),
      Description := Str(description),
      Responsibilities := StrList(responsibilities),
      BasicQualifications := StrList(basic),
      PreferredQualifications := StrList(preferred)],
      JobKeys)
  }

  /** The record `parseJob` returns for a page, or the error it raises. */
  function Extract(norm: string -> string, page: JobPage): Result<Dict, ParseError> {
    if page.title.None? then Failure(NoTitle)
    else if page.location.None? then Failure(NoLocation)
    else if Stranded(page.overview) then Failure(NoOverviewText)
    else if Stranded(page.responsibilities) then Failure(NoList(Responsibilities))
    else if Stranded(page.basicQualifications) then Failure(NoList(BasicQualifications))
    else if Stranded(page.preferredQualifications) then Failure(NoList(PreferredQualifications))
    else
      Success(Record(
        norm(page.title.value),
        norm(page.location.value),
        DescriptionOf(norm, page.overview),
        ItemsOf(norm, page.responsibilities),
        ItemsOf(norm, page.basicQualifications),
        ItemsOf(norm, page.preferredQualifications)))
  }

  /**
   * The key order lists every key of the entries, and only those, once each:
   * the last key listed is an entry, and the rest list the other entries.
   */
  predicate OrderedKeys(entries: map<Key, Value>, keys: seq<Key>)
    decreases |keys|
  {
    if keys == [] then entries == map[]
    else
      var last := keys[|keys| - 1];
      last in entries && OrderedKeys(entries - {last}, keys[..|keys| - 1])
  }

  /** What `OrderedKeys` means: the listed keys are the entries' keys, with no key listed twice. */
  lemma {:induction false} OrderedKeysMeans(entries: map<Key, Value>, keys: seq<Key>)
    requires OrderedKeys(entries, keys)
    ensures forall k :: k in entries <==> k in keys
    ensures forall a, b :: 0 <= a < b < |keys| ==> keys[a] != keys[b]
    decreases |keys|
  {
    if keys != [] {
      var last, front := keys[|keys| - 1], keys[..|keys| - 1];
      OrderedKeysMeans(entries - {last}, front);
      assert keys == front + [last];
      forall a, b | 0 <= a < b < |keys| ensures keys[a] != keys[b] {
        if b == |keys| - 1 {
          assert keys[a] == front[a];
        } else {
          assert keys[a] == front[a] && keys[b] == front[b];
        }
      }
    }
  }

  /** A new dictionary, with no entries and no keys, satisfies the invariant. */
  lemma EmptyKeysOrdered()
    ensures OrderedKeys(map[], [])
  {
  }

  /** Overwriting a listed key leaves the order as it is. */
  lemma {:induction false} OverwriteKeepsOrder(entries: map<Key, Value>, keys: seq<Key>, key: Key, v: Value)
    requires OrderedKeys(entries, keys)
    requires key in entries
    ensures OrderedKeys(entries[key := v], keys)
    decreases |keys|
  {
    var last, front := keys[|keys| - 1], keys[..|keys| - 1];
    if last == key {
      assert entries[key := v] - {last} == entries - {last};
    } else {
      assert entries[key := v] - {last} == (entries - {last})[key := v];
      OverwriteKeepsOrder(entries - {last}, front, key, v);
    }
  }

  /**
   * Assignment keeps the key order in step with the entries: a new key is
   * appended once, and an existing key keeps its place.
   */
  lemma PutKeepsOrder(entries: map<Key, Value>, keys: seq<Key>, key: Key, v: Value)
    requires OrderedKeys(entries, keys)
    ensures OrderedKeys(entries[key := v], if key in entries then keys else keys + [key])
  {
    if key in entries {
      OverwriteKeepsOrder(entries, keys, key, v);
    } else {
      var keys' := keys + [key];
      assert keys'[..|keys'| - 1] == keys;
      assert entries[key := v] - {key} == entries;
    }
  }

  /**
   * `defaultdict(str)`: a dictionary that remembers the order its keys were
   * first inserted in, and whose lookup of a missing key inserts and returns
   * the empty string.
   */
  class JobDict {
    var entries: map<Key, Value>
    var keys: seq<Key>

    /** `keys` is the insertion order of exactly the keys of `entries`. */
    predicate Valid()
      reads this
    {
      OrderedKeys(entries, keys)
    }

    constructor ()
      ensures entries == map[] && keys == []
    {
      entries := map[];
      keys := [];
    }

    /** `d[key] = v`: a new key goes to the end of the order, an existing one keeps its place. */
    method Put(key: Key, v: Value)
      modifies this
      ensures entries == old(entries)[key := v]
      ensures keys == if key in old(entries) then old(keys) else old(keys) + [key]
      ensures old(Valid()) ==> Valid()
    {
      if Valid() {
        PutKeepsOrder(entries, keys, key, v);
      }
      if key !in entries {
        keys := keys + [key];
      }
      entries := entries[key := v];
    }

    /** `d[key]`: the stored value, or the empty string, which is then stored. */
    method Lookup(key: Key) returns (v: Value)
      modifies this
      ensures key in old(entries) ==> v == old(entries)[key] && entries == old(entries) && keys == old(keys)
      ensures key !in old(entries) ==> v == Str("") && entries == old(entries)[key := Str("")] && keys == old(keys) + [key]
      ensures old(Valid()) ==> Valid()
    {
      if key in entries {
        v := entries[key];
      } else {
        v := Str("");
        Put(key, v);
      }
    }

    /** `dict(d)`: a plain copy. */
    function Snapshot(): Dict
      reads this
    {
      Dict(entries, keys)
    }
  }

  /**
   * One list section of `parseJob`: store the heading lookup under `key`,
   * read it back, and replace it, when it is a heading with a list after it,
   * by the normalised item texts, or, when it is `None`, by the empty list.
   * Returns false where the source raises.
   */
  method ExtractSection(job: JobDict, norm: string -> string, key: Key, h: Option<Heading<seq<string>>>)
    returns (ok: bool)
    modifies job
    ensures ok == !Stranded(h)
    ensures ok ==> job.entries == old(job.entries)[key := StrList(ItemsOf(norm, h))]
    ensures ok ==> job.keys == if key in old(job.entries) then old(job.keys) else old(job.keys) + [key]
  {
    job.Put(key, SectionFound(h));
    var found := job.Lookup(key);
    if Truthy(found) {
      match found {
        case SectionTag(Heading(Some(items))) =>
          job.Put(key, StrList(NormalizeEach(norm, items)));
          ok := true;
        case _ =>
          ok := false;
      }
    } else {
      job.Put(key, StrList([]));
      ok := true;
    }
  }

  /**
   * The description step of `parseJob`: store the overview lookup, read it
   * back, and replace it by the normalised text two siblings on, or, when it
   * is `None`, by the empty string. Returns false where the source raises.
   */
  method ExtractDescription(job: JobDict, norm: string -> string, h: Option<Heading<string>>)
    returns (ok: bool)
    modifies job
    ensures ok == !Stranded(h)
    ensures ok ==> job.entries == old(job.entries)[Description := Str(DescriptionOf(norm, h))]
    ensures ok ==> job.keys == if Description in old(job.entries) then old(job.keys) else old(job.keys) + [Description]
  {
    job.Put(Description, OverviewFound(h));
    var found := job.Lookup(Description);
    if Truthy(found) {
      match found {
        case OverviewTag(Heading(Some(text))) =>
          job.Put(Description, Str(norm(text)));
          ok := true;
        case _ =>
          ok := false;
      }
    } else {
      job.Put(Description, Str(""));
      ok := true;
    }
  }

  /** `parseJob` over the lookup results of one page. */
  method ParseJob(norm: string -> string, page: JobPage) returns (r: Result<Dict, ParseError>)
    ensures r == Extract(norm, page)
  {
    var job := new JobDict();
    if page.title.None? {
      return Failure(NoTitle);
    }
    var title := Str(norm(page.title.value));
    job.Put(Title, title);
    if page.location.None? {
      return Failure(NoLocation);
    }
    var location := Str(norm(page.location.value));
    job.Put(Location, location);
    assert job.keys == [Title, Location];

    var ok := ExtractDescription(job, norm, page.overview);
    if !ok {
      return Failure(NoOverviewText);
    }
    assert job.keys == [Title, Location, Description];
    ok := ExtractSection(job, norm, Responsibilities, page.responsibilities);
    if !ok {
      return Failure(NoList(Responsibilities));
    }
    assert job.keys == [Title, Location, Description, Responsibilities];
    ok := ExtractSection(job, norm, BasicQualifications, page.basicQualifications);
    if !ok {
      return Failure(NoList(BasicQualifications));
    }
    assert job.keys == [Title, Location, Description, Responsibilities, BasicQualifications];
    ok := ExtractSection(job, norm, PreferredQualifications, page.preferredQualifications);
    if !ok {
      return Failure(NoList(PreferredQualifications));
    }
    assert job.keys == JobKeys;
    assert job.entries == map[
      Title := title,
      Location := location,
      Description := Str(DescriptionOf(norm, page.overview)),
      Responsibilities := StrList(ItemsOf(norm, page.responsibilities)),
      BasicQualifications := StrList(ItemsOf(norm, page.basicQualifications)),
      PreferredQualifications := StrList(ItemsOf(norm, page.preferredQualifications))];
    assert Extract(norm, page) == Success(Record(
      norm(page.title.value), norm(page.location.value), DescriptionOf(norm, page.overview),
      ItemsOf(norm, page.responsibilities), ItemsOf(norm, page.basicQualifications),
      ItemsOf(norm, page.preferredQualifications)));
    r := Success(job.Snapshot());
  }

  /** Extraction fails exactly when the title or location is missing or a heading lacks what follows it. */
  lemma ExtractFailsIff(norm: string -> string, page: JobPage)
    ensures Extract(norm, page).Failure? <==>
      || page.title.None?
      || page.location.None?
      || Stranded(page.overview)
      || Stranded(page.responsibilities)
      || Stranded(page.basicQualifications)
      || Stranded(page.preferredQualifications)
  {
  }

  /** A page without a title never yields a record, whatever else it has. */
  lemma MissingTitleFails(norm: string -> string, page: JobPage)
    requires page.title.None?
    ensures Extract(norm, page) == Failure(NoTitle)
  {
  }

  /** A record has exactly the six keys, inserted once each in the order of `JobKeys`. */
  lemma ExtractKeys(norm: string -> string, page: JobPage)
    requires Extract(norm, page).Success?
    ensures Extract(norm, page).value.entries.Keys == set k | k in JobKeys
    ensures Extract(norm, page).value.keys == JobKeys
    ensures forall a, b :: 0 <= a < b < |JobKeys| ==> JobKeys[a] != JobKeys[b]
  {
  }

  /** The list field of `h` is empty without its heading, else one normalised item per `<li>`, in order. */
  predicate ListField(norm: string -> string, h: Option<Heading<seq<string>>>, v: Value) {
    && v.StrList?
    && (h.None? ==> v.items == [])
    && (h.Some? && h.value.following.Some? ==>
          var found := h.value.following.value;
          && |v.items| == |found|
          && forall k :: 0 <= k < |found| ==> v.items[k] == norm(found[k]))
  }

  /** Each field of a record, in terms of the page it was extracted from. */
  lemma ExtractFields(norm: string -> string, page: JobPage)
    requires Extract(norm, page).Success?
    ensures var e := Extract(norm, page).value.entries;
      && e[Title] == Str(norm(page.title.value))
      && e[Location] == Str(norm(page.location.value))
      && (page.overview.None? ==> e[Description] == Str(""))
      && (page.overview.Some? ==> e[Description] == Str(norm(page.overview.value.following.value)))
      && ListField(norm, page.responsibilities, e[Responsibilities])
      && ListField(norm, page.basicQualifications, e[BasicQualifications])
      && ListField(norm, page.preferredQualifications, e[PreferredQualifications])
  {
  }

  /**
   * Every text a value holds is ASCII and has no surrounding whitespace, which
   * is what makes it a fixed point of `normalize` (NormalizeFixedPoints).
   */
  predicate CleanValue(v: Value) {
    match v
    case Str(t) => IsAscii(t) && Trimmed(t)
    case StrList(items) => forall k :: 0 <= k < |items| ==> IsAscii(items[k]) && Trimmed(items[k])
    case _ => false
  }

  /** A normaliser whose every output is ASCII with no surrounding whitespace, as `normalize` is. */
  ghost predicate CleansText(norm: string -> string) {
    forall s :: IsAscii(norm(s)) && Trimmed(norm(s))
  }

  lemma NormalizerCleansText(nfc: string -> string)
    ensures CleansText(Normalizer(nfc))
  {
  }

  lemma ItemsAreClean(norm: string -> string, h: Option<Heading<seq<string>>>)
    requires CleansText(norm)
    requires !Stranded(h)
    ensures CleanValue(StrList(ItemsOf(norm, h)))
  {
    var items := ItemsOf(norm, h);
    if h.Some? {
      var found := h.value.following.value;
      forall k | 0 <= k < |items| ensures IsAscii(items[k]) && Trimmed(items[k]) {
        assert items[k] == norm(found[k]);
      }
    }
  }

  /** A record built from clean texts holds clean values only. */
  lemma RecordIsClean(
    title: string, location: string, description: string,
    responsibilities: seq<string>, basic: seq<string>, preferred: seq<string>)
    requires CleanValue(Str(title)) && CleanValue(Str(location)) && CleanValue(Str(description))
    requires CleanValue(StrList(responsibilities)) && CleanValue(StrList(basic)) && CleanValue(StrList(preferred))
    ensures var e := Record(title, location, description, responsibilities, basic, preferred).entries;
      forall key :: key in e ==> CleanValue(e[key])
  {
  }

  /** With a normaliser like `normalize`, every text in a record is ASCII with no surrounding whitespace. */
  lemma ExtractIsClean(norm: string -> string, page: JobPage)
    requires CleansText(norm)
    requires Extract(norm, page).Success?
    ensures var e := Extract(norm, page).value.entries;
      forall key :: key in e ==> CleanValue(e[key])
  {
    var title, location := norm(page.title.value), norm(page.location.value);
    var description := DescriptionOf(norm, page.overview);
    assert CleanValue(Str(title)) && CleanValue(Str(location)) && CleanValue(Str(description));
    ItemsAreClean(norm, page.responsibilities);
    ItemsAreClean(norm, page.basicQualifications);
    ItemsAreClean(norm, page.preferredQualifications);
    RecordIsClean(
      title, location, description, ItemsOf(norm, page.responsibilities),
      ItemsOf(norm, page.basicQualifications), ItemsOf(norm, page.preferredQualifications));
  }

  /** So the record wallE.py builds, with `normalize`, holds only ASCII text with no surrounding whitespace. */
  lemma ParsedRecordIsClean(nfc: string -> string, page: JobPage)
    requires Extract(Normalizer(nfc), page).Success?
    ensures var e := Extract(Normalizer(nfc), page).value.entries;
      forall key :: key in e ==> CleanValue(e[key])
  {
    NormalizerCleansText(nfc);
    ExtractIsClean(Normalizer(nfc), page);
  }

  /**
   * A missing "Preferred Qualifications" heading empties that field and no
   * other: the record agrees with the one for the same page with the section
   * present on every other key.
   */
  lemma MissingPreferredOnlyEmptiesIt(norm: string -> string, page: JobPage, items: seq<string>)
    requires page.preferredQualifications.None?
    requires Extract(norm, page).Success?
    ensures var present := page.(preferredQualifications := Some(Heading(Some(items))));
      var with := Extract(norm, present);
      var without := Extract(norm, page);
      && with.Success?
      && without.value.entries[PreferredQualifications] == StrList([])
      && with.value.entries[PreferredQualifications] == StrList(NormalizeEach(norm, items))
      && forall key :: key in without.value.entries && key != PreferredQualifications ==>
           key in with.value.entries && with.value.entries[key] == without.value.entries[key]
  {
  }
}
