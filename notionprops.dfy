/**
 * `getPageProperties` (lib/notion.ts lines 23-72) and the records the fetch functions build
 * from its result (lines 91-102, 286-327, 350-357, 380-389).
 *
 * A Notion property arrives as a JSON object with a `type` tag and one field named after the
 * tag.  The model keeps, per tag, exactly the parts of that object the code reads; a field the
 * code reads without an optional chain, and that may therefore be absent and make the access
 * throw, is an `Option` whose `None` is that absence.
 */
module NotionProps {
  import opened Wrappers

  /** One entry of `files`: the URL under `file`, the URL under `external`, either possibly missing. */
  datatype FileEntry = FileEntry(file: Option<string>, external: Option<string>)

  /**
   * A property value by its type tag.  `Title` and `RichText` hold the `plain_text` of each
   * fragment (a fragment may lack it); `MultiSelect` the `name` of each option; `Date` the
   * `start` of the date, `None` when the date or its start is missing.  Any tag the code does
   * not name, and a value that is not an object, is `Other`.
   */
  datatype PropValue =
    | Title(title: Option<seq<Option<string>>>)
    | RichText(richText: Option<seq<Option<string>>>)
    | Date(start: Option<string>)
    | MultiSelect(names: Option<seq<string>>)
    | Select(name: Option<string>)
    | Files(files: Option<seq<FileEntry>>)
    | Url(url: Option<string>)
    | Email(email: Option<string>)
    | Checkbox(checkbox: Option<bool>)
    | Number(number: Option<int>)
    | Other(tag: string)

  /** The plain values `getPageProperties` stores: a string, a list of names, a flag, a number or `null`. */
  datatype Plain = Str(s: string) | Strs(items: seq<string>) | Bool(b: bool) | Num(n: int) | Null

  /**
   * JavaScript truthiness of a plain value: the empty string, `false`, `0` and `null` are
   * falsy; every array, even an empty one, is truthy.
   */
  predicate Truthy(v: Plain) {
    match v
    case Str(s) => s != ""
    case Strs(_) => true
    case Bool(b) => b
    case Num(n) => n != 0
    case Null => false
  }

  /** `x || ""` for a string that may be missing. */
  function OrEmpty(x: Option<string>): (r: string)
    ensures x.Some? && x.value != "" ==> r == x.value
    ensures x.None? || x.value == "" ==> r == ""
  {
    match x
    case Some(t) => t
    case None => ""
  }

  /** `list[0]?.plain_text || ""`, or `None` when the list itself is missing and indexing it throws. */
  function FirstText(list: Option<seq<Option<string>>>): Option<string> {
    match list
    case None => None
    case Some(fragments) => Some(if fragments == [] then "" else OrEmpty(fragments[0]))
  }

  /** Lines 44-50: the first file's own URL, else its external URL, else `""`. */
  function FileUrl(files: Option<seq<FileEntry>>): string {
    match files
    case Some(entries) =>
      if |entries| > 0 then
        var own := OrEmpty(entries[0].file);
        if own != "" then own else OrEmpty(entries[0].external)
      else ""
    case None => ""
  }

  /**
   * Lines 28-67: the plain value stored for one property; a throwing access is caught as `null`.
   * The text-like types give a string, `multi_select` a list, `checkbox` a flag, `number` a number.
   */
  function Normalize(v: PropValue): (r: Plain)
    ensures (v.Date? || v.Select? || v.Files? || v.Url? || v.Email?) ==> r.Str?
    ensures (v.Title? && v.title.Some?) || (v.RichText? && v.richText.Some?) ==> r.Str?
    ensures v.MultiSelect? && v.names.Some? ==> r.Strs?
    ensures v.Checkbox? ==> r.Bool?
    ensures v.Number? ==> r.Num?
  {
    match v
    case Title(list) => if list.None? then Null else Str(FirstText(list).value)
    case RichText(list) => if list.None? then Null else Str(FirstText(list).value)
    case Date(start) => Str(OrEmpty(start))
    case MultiSelect(names) => if names.None? then Null else Strs(names.value)
    case Select(name) => Str(OrEmpty(name))
    case Files(files) => Str(FileUrl(files))
    case Url(url) => Str(OrEmpty(url))
    case Email(email) => Str(OrEmpty(email))
    case Checkbox(c) => Bool(c == Some(true))
    case Number(n) => Num(n.GetOr(0))
    case Other(_) => Null
  }

  /** The record after the first `|entries|` entries have been stored, a later key overwriting an earlier one. */
  function Properties(entries: seq<(string, PropValue)>): map<string, Plain>
    decreases |entries|
  {
    if entries == [] then map[]
    else
      var last := entries[|entries| - 1];
      Properties(entries[..|entries| - 1])[last.0 := Normalize(last.1)]
  }

  /** `getPageProperties(page)`: the loop over `Object.entries(page.properties)`. */
  method GetPageProperties(entries: seq<(string, PropValue)>) returns (properties: map<string, Plain>)
    ensures properties == Properties(entries)
    ensures properties.Keys == set i | 0 <= i < |entries| :: entries[i].0
  {
    properties := map[];
    var i := 0;
    while i < |entries|
      invariant 0 <= i <= |entries|
      invariant properties == Properties(entries[..i])
    {
      var (key, value) := entries[i];
      assert entries[..i + 1][..i] == entries[..i];
      properties := properties[key := Normalize(value)];
      i := i + 1;
    }
    assert entries[..i] == entries;
    PropertiesKeys(entries);
  }

  /** The record has exactly the keys of the entries. */
  lemma {:induction false} PropertiesKeys(entries: seq<(string, PropValue)>)
    ensures Properties(entries).Keys == set i | 0 <= i < |entries| :: entries[i].0
    decreases |entries|
  {
    if entries != [] {
      var n := |entries| - 1;
      var front := entries[..n];
      PropertiesKeys(front);
      var lhs := Properties(entries).Keys;
      var rhs := set i | 0 <= i < |entries| :: entries[i].0;
      forall k | k in rhs ensures k in lhs {
        var i :| 0 <= i < |entries| && entries[i].0 == k;
        if i < n { assert front[i] == entries[i]; }
      }
      forall k | k in lhs ensures k in rhs {
        if k != entries[n].0 {
          var i :| 0 <= i < |front| && front[i].0 == k;
          assert entries[i] == front[i];
        }
      }
    }
  }

  /** A key's value comes from its last entry, whatever the entries before or after hold for other keys. */
  lemma {:induction false} PropertiesLast(entries: seq<(string, PropValue)>, i: nat)
    requires i < |entries|
    requires forall j :: i < j < |entries| ==> entries[j].0 != entries[i].0
    ensures entries[i].0 in Properties(entries)
    ensures Properties(entries)[entries[i].0] == Normalize(entries[i].1)
    decreases |entries|
  {
    var n := |entries| - 1;
    if i < n {
      var front := entries[..n];
      assert front[i] == entries[i];
      forall j | i < j < |front| ensures front[j].0 != front[i].0 {
        assert front[j] == entries[j];
      }
      PropertiesLast(front, i);
    }
  }

  /** With distinct keys, as an object has, every key holds the normalised value of its own property. */
  lemma PropertiesOfObject(entries: seq<(string, PropValue)>)
    requires forall i, j :: 0 <= i < j < |entries| ==> entries[i].0 != entries[j].0
    ensures forall i :: 0 <= i < |entries| ==>
      entries[i].0 in Properties(entries) && Properties(entries)[entries[i].0] == Normalize(entries[i].1)
  {
    forall i | 0 <= i < |entries|
      ensures entries[i].0 in Properties(entries) && Properties(entries)[entries[i].0] == Normalize(entries[i].1)
    {
      PropertiesLast(entries, i);
    }
  }

  /** Lines 63-67: `null` only for an unknown tag or an access that throws; other tags always yield a value. */
  lemma NormalizeNull(v: PropValue)
    ensures Normalize(v) == Null <==>
      v.Other? || (v.Title? && v.title.None?) || (v.RichText? && v.richText.None?)
      || (v.MultiSelect? && v.names.None?)
  {
  }

  /** Lines 29-34: the first fragment's text, `""` for an empty list or a fragment without text. */
  lemma TextOfFirstFragment(list: seq<Option<string>>)
    ensures Normalize(Title(Some(list))) == Normalize(RichText(Some(list)))
    ensures list == [] ==> Normalize(Title(Some(list))) == Str("")
    ensures list != [] ==> Normalize(Title(Some(list))) == Str(list[0].GetOr(""))
  {
  }

  /** Lines 44-50: the own URL wins when it is not empty; otherwise the external one, else `""`. */
  lemma FileUrlChoice(entries: seq<FileEntry>)
    ensures entries == [] ==> Normalize(Files(Some(entries))) == Str("")
    ensures entries != [] && entries[0].file.Some? && entries[0].file.value != "" ==>
      Normalize(Files(Some(entries))) == Str(entries[0].file.value)
    ensures entries != [] && (entries[0].file.None? || entries[0].file.value == "") ==>
      Normalize(Files(Some(entries))) == Str(entries[0].external.GetOr(""))
    ensures Normalize(Files(None)) == Str("")
  {
  }

  /** Lines 35-62: the defaults `""`, `false` and `0` stand in for a missing value. */
  lemma MissingDefaults()
    ensures Normalize(Date(None)) == Str("") && Normalize(Select(None)) == Str("")
    ensures Normalize(Url(None)) == Str("") && Normalize(Email(None)) == Str("")
    ensures Normalize(Checkbox(None)) == Bool(false) && Normalize(Number(None)) == Num(0)
  {
  }

  /** `props[key]`, with a missing key read as `undefined`, which is falsy like `null`. */
  function Get(props: map<string, Plain>, key: string): Plain {
    if key in props then props[key] else Null
  }

  /** `props[k0] || props[k1] || … || default`: the first truthy value, else the default. */
  function FirstTruthy(props: map<string, Plain>, keys: seq<string>, default: Plain): (r: Plain)
    ensures (exists i :: 0 <= i < |keys| && Truthy(Get(props, keys[i]))) ==>
      exists i :: 0 <= i < |keys| && r == Get(props, keys[i]) && Truthy(r)
        && forall j :: 0 <= j < i ==> !Truthy(Get(props, keys[j]))
    ensures (forall i :: 0 <= i < |keys| ==> !Truthy(Get(props, keys[i]))) ==> r == default
    decreases |keys|
  {
    if keys == [] then default
    else if Truthy(Get(props, keys[0])) then Get(props, keys[0])
    else
      var r := FirstTruthy(props, keys[1..], default);
      assert forall i :: 1 <= i < |keys| ==> keys[1..][i - 1] == keys[i];
      r
  }

  /** A chain ending in a truthy default never yields a falsy value. */
  lemma TruthyDefault(props: map<string, Plain>, keys: seq<string>, default: Plain)
    requires Truthy(default)
    ensures Truthy(FirstTruthy(props, keys, default))
  {
    if exists i :: 0 <= i < |keys| && Truthy(Get(props, keys[i])) {
    }
  }

  /** The first name of the chain wins whenever it holds a truthy value. */
  lemma FirstKeyWins(props: map<string, Plain>, keys: seq<string>, default: Plain)
    requires keys != [] && Truthy(Get(props, keys[0]))
    ensures FirstTruthy(props, keys, default) == Get(props, keys[0])
  {
  }

  // ---- Records (slugs omitted) ----

  datatype Project = Project(
    id: string, title: Plain, description: Plain, image: Plain, tags: Plain,
    category: Plain, liveUrl: Plain, githubUrl: Plain)

  /** Lines 91-102, without the slug. */
  function ProjectOf(id: string, props: map<string, Plain>): Project {
    Project(
      id,
      FirstTruthy(props, ["Title"], Str("Untitled Project")),
      FirstTruthy(props, ["Description"], Str("")),
      FirstTruthy(props, ["Image"], Str("/placeholder.svg")),
      FirstTruthy(props, ["Tags"], Strs([])),
      FirstTruthy(props, ["Category"], Str("Other")),
      FirstTruthy(props, ["Live URL", "Live Url", "LiveUrl"], Str("")),
      FirstTruthy(props, ["Github URL", "Github Url", "GithubUrl"], Str("")))
  }

  datatype WorkExperience = WorkExperience(
    id: string, title: Plain, company: Plain, startDate: Plain, endDate: Plain, period: Plain,
    description: Plain, location: Plain, skills: Plain)

  const PositionKeys := ["Titulo del Puesto", "Título del Puesto", "Title", "Position"]

  /** Lines 286-327. */
  function WorkExperienceOf(id: string, props: map<string, Plain>): WorkExperience {
    WorkExperience(
      id,
      FirstTruthy(props, PositionKeys, Str("Unnamed Position")),
      FirstTruthy(props, ["Empresa", "Company"], Str("")),
      FirstTruthy(props, ["Fecha de Inicio", "Start Date"], Str("")),
      FirstTruthy(props, ["Fecha de Fin", "End Date"], Str("Presente")),
      FirstTruthy(props, ["Periodo", "Period"], Str("")),
      FirstTruthy(props, ["Descripcion", "Descripción", "Description"], Str("")),
      FirstTruthy(props, ["Ubicacion", "Ubicación", "Location"], Str("")),
      FirstTruthy(props, ["Habilidades", "Skills"], Strs([])))
  }

  datatype Education = Education(
    id: string, degree: Plain, institution: Plain, period: Plain, location: Plain, description: Plain)

  /** Lines 350-357. */
  function EducationOf(id: string, props: map<string, Plain>): Education {
    Education(
      id,
      FirstTruthy(props, ["Título del grado", "Titulo del grado"], Str("")),
      FirstTruthy(props, ["Institución", "Institucion"], Str("")),
      FirstTruthy(props, ["Periodo"], Str("")),
      FirstTruthy(props, ["Ubicación", "Ubicacion"], Str("")),
      FirstTruthy(props, ["Descripción", "Descripcion"], Str("")))
  }

  datatype Certification = Certification(
    id: string, name: Plain, issuer: Plain, date: Plain, credentialId: Plain, url: Plain,
    tags: Plain, icon: Plain)

  /** Lines 380-389. */
  function CertificationOf(id: string, props: map<string, Plain>): Certification {
    Certification(
      id,
      FirstTruthy(props, ["Nombre"], Str("Unnamed Certification")),
      FirstTruthy(props, ["Entidad emisora"], Str("")),
      FirstTruthy(props, ["Fecha de emisión"], Str("")),
      FirstTruthy(props, ["ID de credencial"], Str("")),
      FirstTruthy(props, ["URL de verificación"], Str("")),
      FirstTruthy(props, ["Tags relacionados"], Strs([])),
      FirstTruthy(props, ["Icono"], Str("")))
  }

  /** A project always has a title, an image, tags and a category: each chain ends in a truthy default. */
  lemma ProjectNeverBlank(id: string, props: map<string, Plain>)
    ensures var p := ProjectOf(id, props);
      Truthy(p.title) && Truthy(p.image) && Truthy(p.tags) && Truthy(p.category)
  {
    TruthyDefault(props, ["Title"], Str("Untitled Project"));
    TruthyDefault(props, ["Image"], Str("/placeholder.svg"));
    TruthyDefault(props, ["Tags"], Strs([]));
    TruthyDefault(props, ["Category"], Str("Other"));
  }

  /** The live URL is the first truthy of its three spellings, or `""` when none is. */
  lemma ProjectLiveUrl(props: map<string, Plain>)
    ensures var u := ProjectOf("", props).liveUrl;
      if Truthy(Get(props, "Live URL")) then u == Get(props, "Live URL")
      else if Truthy(Get(props, "Live Url")) then u == Get(props, "Live Url")
      else if Truthy(Get(props, "LiveUrl")) then u == Get(props, "LiveUrl")
      else u == Str("")
  {
    var keys := ["Live URL", "Live Url", "LiveUrl"];
    assert keys[1..] == ["Live Url", "LiveUrl"] && keys[1..][1..] == ["LiveUrl"];
  }

  /** Lines 290-295: the position title falls through its four spellings to `"Unnamed Position"`. */
  lemma PositionTitle(id: string, props: map<string, Plain>)
    ensures var t := WorkExperienceOf(id, props).title;
      Truthy(t)
      && ((forall k :: k in PositionKeys ==> !Truthy(Get(props, k))) ==> t == Str("Unnamed Position"))
      && (Truthy(Get(props, "Titulo del Puesto")) ==> t == Get(props, "Titulo del Puesto"))
      && ((exists k :: k in PositionKeys && Truthy(Get(props, k))) ==> exists k :: k in PositionKeys && t == Get(props, k))
  {
    TruthyDefault(props, PositionKeys, Str("Unnamed Position"));
    var t := WorkExperienceOf(id, props).title;
    if exists i :: 0 <= i < |PositionKeys| && Truthy(Get(props, PositionKeys[i])) {
      var i :| 0 <= i < |PositionKeys| && t == Get(props, PositionKeys[i]) && Truthy(t);
      assert PositionKeys[i] in PositionKeys;
    } else {
      forall k | k in PositionKeys ensures !Truthy(Get(props, k)) {
        var i :| 0 <= i < |PositionKeys| && PositionKeys[i] == k;
      }
    }
  }

  /** Line 322: without either end date the experience is still going on. */
  lemma OngoingWithoutEndDate(id: string, props: map<string, Plain>)
    requires !Truthy(Get(props, "Fecha de Fin")) && !Truthy(Get(props, "End Date"))
    ensures WorkExperienceOf(id, props).endDate == Str("Presente")
  {
  }

  /** A certification always has a name and tags. */
  lemma CertificationNeverBlank(id: string, props: map<string, Plain>)
    ensures Truthy(CertificationOf(id, props).name) && Truthy(CertificationOf(id, props).tags)
  {
    TruthyDefault(props, ["Nombre"], Str("Unnamed Certification"));
    TruthyDefault(props, ["Tags relacionados"], Strs([]));
  }

  /** Lines 352-356: with no property of that name an education field is the empty string. */
  lemma EducationDefaults(id: string)
    ensures EducationOf(id, map[]) == Education(id, Str(""), Str(""), Str(""), Str(""), Str(""))
  {
  }

  /**
   * End to end: a project page whose `Title` property is a title with a non-empty first
   * fragment, and whose other entries have other keys, gets that text as its title.
   */
  lemma ProjectTitleFromPage(entries: seq<(string, PropValue)>, i: nat, text: string, rest: seq<Option<string>>)
    requires i < |entries| && entries[i] == ("Title", Title(Some([Some(text)] + rest))) && text != ""
    requires forall j :: i < j < |entries| ==> entries[j].0 != "Title"
    ensures ProjectOf("", Properties(entries)).title == Str(text)
  {
    PropertiesLast(entries, i);
    var props := Properties(entries);
    assert Get(props, "Title") == Str(text);
    FirstKeyWins(props, ["Title"], Str("Untitled Project"));
  }
}
