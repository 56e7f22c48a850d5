/** The durable store of application metadata: sanitising, reading, merging and replacing one file. */
module MetadataStore {
  import opened Results
  import opened Text

  const LIMIT: nat := 256 * 1024
  const RECENT := "yntra-vault-recent-vaults"
  const SETTINGS := "yntra-vault-settings"
  const THEME := "yntra-vault-theme"
  const SETUP := "yntra-vault-setup-completed"

  type Values = map<string, string>

  // ---- JSON, with its text left abstract

  /** The integers of a JSON number, and the bits of a finite double. */
  type integer = n: int | -0x8000_0000_0000_0000 <= n < 0x1_0000_0000_0000_0000
  type double = bits: int | 0 <= bits < 0x1_0000_0000_0000_0000 && bits / 0x10_0000_0000_0000 % 0x800 != 0x7FF

  datatype Json =
    | Null | Bool(b: bool) | Int(n: integer) | Float(bits: double) | Str(s: string)
    | Arr(items: seq<Json>) | Obj(fields: map<string, Json>)

  /** A reader and a writer of JSON text. */
  datatype Codec = Codec(parse: string -> Option<Json>, render: Json -> string)

  function ValuesJson(values: Values): Json {
    Obj(map k | k in values :: Str(values[k]))
  }

  /** The document stored in the file. */
  function DocumentJson(values: Values): Json {
    Obj(map["schema" := Int(1), "values" := ValuesJson(values)])
  }

  /** Reading undoes writing, wrapping a map into a document makes its text longer, and the empty list and
      object have their usual texts. */
  ghost predicate Lawful(c: Codec) {
    && (forall j :: c.parse(c.render(j)) == Some(j))
    && (forall v: Values :: Utf8Len(c.render(ValuesJson(v))) < Utf8Len(c.render(DocumentJson(v))))
    && c.render(Arr([])) == "[]" && c.render(Obj(map[])) == "{}"
  }

  // ---- Sanitising

  const VAULT_FIELDS: set<string> := {"id", "name", "path"}

  const ALLOWED: set<string> := {
    "theme", "language", "sidebarWidth", "passwordListWidth", "fontSize", "density",
    "autoLockMinutes", "clipboardClearSeconds", "minimizeToTray", "launchOnStartup",
    "disableSkeletonDelays", "autoBreachCheck", "showBreachInList", "autotypeCharDelayMs",
    "autotypeFieldDelayMs", "autotypeSettleDelayMs", "autotypeLaunchBrowser", "tagSortOrder",
    "showTagCounts", "entrySortOrder", "groupByDate", "keybinds", "forceMobileView",
    "windowCaptureProtection", "lockOnFocusLoss", "lockOnSystemLock", "webdavEnabled",
    "webdavUrl", "webdavUser", "webdavAutoSync", "p2pAddr", "p2pAutoListen", "p2pAutoSyncWifi",
    "p2pAutoSyncIntervalMinutes", "externalFaviconsEnabled", "autoCheckUpdates", "operationMode"
  }

  predicate GoodField(j: Json) {
    j.Str? && Utf8Len(j.s) <= 8192 && 0 as char !in j.s
  }

  predicate GoodVault(j: Json) {
    j.Obj? && forall f :: f in VAULT_FIELDS ==> f in j.fields && GoodField(j.fields[f])
  }

  /** Only the three known fields of a vault entry are kept. */
  function CleanVault(j: Json): (r: Json)
    requires GoodVault(j)
  {
    Obj(map f | f in VAULT_FIELDS :: j.fields[f])
  }

  function CleanVaults(items: seq<Json>): seq<Json>
    requires forall j :: j in items ==> GoodVault(j)
  {
    seq(|items|, i requires 0 <= i < |items| => CleanVault(items[i]))
  }

  function CleanRecent(c: Codec, raw: string): Option<string> {
    match c.parse(raw)
    case Some(Arr(items)) =>
      if |items| <= 10 && forall j :: j in items ==> GoodVault(j) then Some(c.render(Arr(CleanVaults(items)))) else None
    case _ => None
  }

  function CleanSettings(c: Codec, raw: string): Option<string> {
    match c.parse(raw)
    case Some(Obj(fields)) => Some(c.render(Obj(map k | k in fields && k in ALLOWED :: fields[k])))
    case _ => None
  }

  /** One value as it may be stored, or none when the pair is refused. */
  function CleanValue(c: Codec, key: string, raw: string): Option<string> {
    if key == RECENT then CleanRecent(c, raw)
    else if key == SETTINGS then CleanSettings(c, raw)
    else if key == THEME && raw in {"dark", "light", "system"} then Some(raw)
    else if key == SETUP && raw in {"true", "false"} then Some(raw)
    else None
  }

  predicate Fits(c: Codec, values: Values) {
    Utf8Len(c.render(ValuesJson(values))) <= LIMIT
  }

  predicate AllClean(c: Codec, values: Values) {
    forall k :: k in values ==> CleanValue(c, k, values[k]).Some?
  }

  function Cleaned(c: Codec, values: Values): Values
    requires AllClean(c, values)
  {
    map k | k in values :: CleanValue(c, k, values[k]).value
  }

  function Sanitized(c: Codec, values: Values): Option<Values> {
    if Fits(c, values) && AllClean(c, values) then Some(Cleaned(c, values)) else None
  }

  method Sanitize(c: Codec, values: Values) returns (r: Result<Values>)
    ensures r.Ok? <==> Sanitized(c, values).Some?
    ensures r.Ok? ==> r.value == Sanitized(c, values).value
  {
    if Utf8Len(c.render(ValuesJson(values))) > LIMIT { return Err("Application metadata is too large"); }
    var clean := values;
    var todo := values.Keys;
    while todo != {}
      invariant todo <= values.Keys == clean.Keys
      invariant forall k :: k in todo ==> clean[k] == values[k]
      invariant forall k :: k in values && k !in todo ==> CleanValue(c, k, values[k]) == Some(clean[k])
      decreases |todo|
    {
      var key :| key in todo;
      match CleanValue(c, key, clean[key]) {
        case None => return Err("Invalid application metadata");
        case Some(value) => clean := clean[key := value];
      }
      todo := todo - {key};
    }
    r := Ok(clean);
  }

  /** Sanitising a sanitised value changes nothing. */
  lemma CleanValueIsFixed(c: Codec, key: string, raw: string)
    requires Lawful(c) && CleanValue(c, key, raw).Some?
    ensures CleanValue(c, key, CleanValue(c, key, raw).value) == CleanValue(c, key, raw)
  {
    if key == RECENT {
      var items := c.parse(raw).value.items;
      var clean := CleanVaults(items);
      forall i | 0 <= i < |clean| ensures GoodVault(clean[i]) && CleanVault(clean[i]) == clean[i] {
        assert items[i] in items;
      }
      assert CleanVaults(clean) == clean;
      assert c.parse(c.render(Arr(clean))) == Some(Arr(clean));
    } else if key == SETTINGS {
      var fields := c.parse(raw).value.fields;
      var kept := map k | k in fields && k in ALLOWED :: fields[k];
      assert (map k | k in kept && k in ALLOWED :: kept[k]) == kept;
      assert c.parse(c.render(Obj(kept))) == Some(Obj(kept));
    }
  }

  // ---- The file

  /** What the path leads to: nothing, bytes that are not text, or a text. */
  datatype File = Missing | NotText | Contents(text: string)

  function StringMap(j: Json): Option<Values> {
    if j.Obj? && (forall k :: k in j.fields ==> j.fields[k].Str?)
    then Some(map k | k in j.fields :: j.fields[k].s) else None
  }

  /** Schema number and values of a document; the reader takes the two as named fields or as a pair. */
  function ParseDocument(j: Json): Option<(int, Values)> {
    var parts :=
      if j.Obj? && "schema" in j.fields && "values" in j.fields then Some((j.fields["schema"], j.fields["values"]))
      else if j.Arr? && |j.items| == 2 then Some((j.items[0], j.items[1]))
      else None;
    if parts.None? || !parts.value.0.Int? || !(0 <= parts.value.0.n < 0x1_0000_0000) then None
    else match StringMap(parts.value.1)
      case None => None
      case Some(values) => Some((parts.value.0.n, values))
  }

  /** The values read from a file, or none when reading reports an error. */
  function Stored(c: Codec, file: File): Option<Values> {
    match file
    case Missing => Some(map[])
    case NotText => None
    case Contents(text) =>
      if Utf8Len(text) > LIMIT then None
      else match c.parse(text)
        case None => None
        case Some(j) =>
          match ParseDocument(j)
          case None => None
          case Some((schema, values)) => if schema == 1 then Sanitized(c, values) else None
  }

  /** Where the file system fails while a store is written. */
  datatype Fault = NoFault | CannotRead | CannotStage | CannotReplace

  /** Initialising keeps the stored values and adds the missing ones; updating overwrites. */
  function Merged(stored: Values, values: Values, initialize: bool): Values {
    if initialize then values + stored else stored + values
  }

  /** The values to write, or none when writing is refused. */
  function ToWrite(c: Codec, file: File, values: Values, initialize: bool): Option<Values> {
    if Sanitized(c, values).None? || Stored(c, file).None? then None
    else
      var merged := Merged(Stored(c, file).value, Sanitized(c, values).value, initialize);
      if Utf8Len(c.render(DocumentJson(merged))) > LIMIT then None else Some(merged)
  }

  /** One turn of the merging loop. */
  lemma MergeOne(stored: Values, values: Values, todo: set<string>, key: string, initialize: bool)
    requires key in todo && todo <= values.Keys
    ensures var merged := Merged(stored, values - todo, initialize);
            Merged(stored, values - (todo - {key}), initialize)
            == if initialize && key in merged then merged else merged[key := values[key]]
  {
    assert values - (todo - {key}) == (values - todo)[key := values[key]];
  }

  lemma MergeEnds(stored: Values, values: Values, initialize: bool)
    ensures Merged(stored, values - values.Keys, initialize) == stored
    ensures Merged(stored, values - {}, initialize) == Merged(stored, values, initialize)
  {
    assert values - values.Keys == map[];
    assert values - {} == values;
  }

  method Merge(stored: Values, values: Values, initialize: bool) returns (merged: Values)
    ensures merged == Merged(stored, values, initialize)
  {
    merged := stored;
    var todo := values.Keys;
    MergeEnds(stored, values, initialize);
    while todo != {}
      invariant todo <= values.Keys
      invariant merged == Merged(stored, values - todo, initialize)
      decreases |todo|
    {
      var key :| key in todo;
      MergeOne(stored, values, todo, key, initialize);
      if !(initialize && key in merged) {
        merged := merged[key := values[key]];
      }
      todo := todo - {key};
    }
  }

  /** The metadata file, read and replaced as a whole. */
  class Store {
    const c: Codec
    var file: File

    constructor (c: Codec, file: File)
      ensures this.c == c && this.file == file
    {
      this.c := c;
      this.file := file;
    }

    method Read(readable: bool) returns (r: Result<Values>)
      ensures r.Ok? <==> (file.Missing? || readable) && Stored(c, file).Some?
      ensures r.Ok? ==> Some(r.value) == Stored(c, file)
    {
      if file.Missing? { return Ok(map[]); }
      if !readable { return Err("Cannot read saved application metadata"); }
      if file.NotText? { return Err("Saved application metadata is damaged; it has not been reset"); }
      if Utf8Len(file.text) > LIMIT { return Err("Saved application metadata is too large"); }
      var json := c.parse(file.text);
      if json.None? || ParseDocument(json.value).None? {
        return Err("Saved application metadata is damaged; it has not been reset");
      }
      var (schema, values) := ParseDocument(json.value).value;
      if schema != 1 { return Err("Application metadata needs a newer app version"); }
      r := Sanitize(c, values);
    }

    method Write(values: Values, initialize: bool, fault: Fault) returns (r: Result<()>)
      modifies this
      ensures r.Ok? <==>
              && ToWrite(c, old(file), values, initialize).Some?
              && (fault.NoFault? || (fault.CannotRead? && old(file).Missing?))
      ensures r.Err? ==> file == old(file)
      ensures r.Ok? ==> file == Contents(c.render(DocumentJson(ToWrite(c, old(file), values, initialize).value)))
      ensures r.Ok? && Lawful(c) ==>
        Stored(c, file) == Some(Merged(Stored(c, old(file)).value, Cleaned(c, values), initialize))
    {
      var sanitized := Sanitize(c, values);
      if sanitized.Err? { return Err(sanitized.message); }
      var stored := Read(!fault.CannotRead?);
      if stored.Err? { return Err(stored.message); }
      var merged := Merge(stored.value, sanitized.value, initialize);
      if fault.CannotStage? { return Err("Cannot stage application metadata"); }
      var text := c.render(DocumentJson(merged));
      if Utf8Len(text) > LIMIT { return Err("Application metadata is too large"); }
      if fault.CannotReplace? { return Err("Cannot replace application metadata"); }
      WriteIsReadable(c, file, values, initialize);
      file := Contents(text);
      r := Ok(());
    }
  }

  lemma DocumentReadsBack(values: Values)
    ensures ParseDocument(DocumentJson(values)) == Some((1, values))
  {
    var fields := ValuesJson(values).fields;
    assert (map k | k in fields :: fields[k].s) == values;
    var document := DocumentJson(values).fields;
    assert document["schema"] == Int(1) && document["values"] == ValuesJson(values);
  }

  /** Values out of the store, and sanitised values, are clean and stay as they are. */
  ghost predicate Fixed(c: Codec, values: Values) {
    AllClean(c, values) && Cleaned(c, values) == values
  }

  lemma SanitizedIsFixed(c: Codec, values: Values)
    requires Lawful(c) && Sanitized(c, values).Some?
    ensures Fixed(c, Sanitized(c, values).value)
  {
    var clean := Cleaned(c, values);
    forall k | k in clean ensures CleanValue(c, k, clean[k]) == Some(clean[k]) {
      CleanValueIsFixed(c, k, values[k]);
    }
  }

  lemma StoredIsFixed(c: Codec, file: File)
    requires Lawful(c) && Stored(c, file).Some?
    ensures Fixed(c, Stored(c, file).value)
  {
    if file.Contents? {
      SanitizedIsFixed(c, ParseDocument(c.parse(file.text).value).value.1);
    }
  }

  lemma MergedIsFixed(c: Codec, stored: Values, values: Values, initialize: bool)
    requires Fixed(c, stored) && Fixed(c, values)
    ensures Fixed(c, Merged(stored, values, initialize))
  {
    var merged := Merged(stored, values, initialize);
    forall k | k in merged ensures CleanValue(c, k, merged[k]) == Some(merged[k]) {
      if k in stored && merged[k] == stored[k] {
        assert Cleaned(c, stored)[k] == stored[k];
      } else {
        assert Cleaned(c, values)[k] == values[k];
      }
    }
    assert Cleaned(c, merged) == merged;
  }

  /** What is written can always be read: a successful write leaves a file that reads back as exactly the stored
      values merged with the sanitised new ones, so neither the size limits nor the validation can lock it. */
  lemma WrittenReadsBack(c: Codec, file: File, values: Values, initialize: bool)
    requires Lawful(c) && ToWrite(c, file, values, initialize).Some?
    ensures var written := ToWrite(c, file, values, initialize).value;
      && written == Merged(Stored(c, file).value, Cleaned(c, values), initialize)
      && Stored(c, Contents(c.render(DocumentJson(written)))) == Some(written)
  {
    var written := ToWrite(c, file, values, initialize).value;
    StoredIsFixed(c, file);
    SanitizedIsFixed(c, values);
    MergedIsFixed(c, Stored(c, file).value, Cleaned(c, values), initialize);
    assert Utf8Len(c.render(ValuesJson(written))) < Utf8Len(c.render(DocumentJson(written)));
    DocumentReadsBack(written);
  }

  lemma WriteIsReadable(c: Codec, file: File, values: Values, initialize: bool)
    ensures Lawful(c) && ToWrite(c, file, values, initialize).Some? ==>
      Stored(c, Contents(c.render(DocumentJson(ToWrite(c, file, values, initialize).value)))) ==
        Some(Merged(Stored(c, file).value, Cleaned(c, values), initialize))
  {
    if Lawful(c) && ToWrite(c, file, values, initialize).Some? { WrittenReadsBack(c, file, values, initialize); }
  }

  // ---- What sanitising keeps

  /** A vault of the recent list is accepted with an identifier, a name and a path, each a text of at most 8192 bytes
      without U+0000, whatever else it has. */
  predicate IsVault(j: Json) {
    && j.Obj? && "id" in j.fields && "name" in j.fields && "path" in j.fields
    && IsShortText(j.fields["id"]) && IsShortText(j.fields["name"]) && IsShortText(j.fields["path"])
  }

  predicate IsShortText(j: Json) { j.Str? && Utf8Len(j.s) <= 8192 && forall i :: 0 <= i < |j.s| ==> j.s[i] != '\0' }

  lemma GoodVaultIff(j: Json)
    ensures GoodVault(j) <==> IsVault(j)
  {
    if IsVault(j) { forall f | f in VAULT_FIELDS ensures f in j.fields && GoodField(j.fields[f]) {} }
    if GoodVault(j) { assert "id" in VAULT_FIELDS && "name" in VAULT_FIELDS && "path" in VAULT_FIELDS; }
  }

  /** Which pairs are accepted. */
  lemma AcceptedIff(c: Codec, key: string, raw: string)
    ensures CleanValue(c, key, raw).Some?
            <==> (|| (key == RECENT && c.parse(raw).Some? && c.parse(raw).value.Arr? && |c.parse(raw).value.items| <= 10
                      && forall j :: j in c.parse(raw).value.items ==> IsVault(j))
                  || (key == SETTINGS && c.parse(raw).Some? && c.parse(raw).value.Obj?)
                  || (key == THEME && (raw == "dark" || raw == "light" || raw == "system"))
                  || (key == SETUP && (raw == "true" || raw == "false")))
  {
    if key == RECENT && c.parse(raw).Some? && c.parse(raw).value.Arr? {
      forall j | j in c.parse(raw).value.items ensures GoodVault(j) <==> IsVault(j) { GoodVaultIff(j); }
    }
  }

  /** A vault with its identifier, name and path and nothing else. */
  predicate IsTrimmed(before: Json, after: Json) {
    && before.Obj? && after.Obj? && after.fields.Keys == {"id", "name", "path"}
    && forall f :: f in after.fields ==> f in before.fields && after.fields[f] == before.fields[f]
  }

  lemma CleanVaultTrims(j: Json)
    requires GoodVault(j)
    ensures IsTrimmed(j, CleanVault(j))
  {}

  /** The items of a list that a text stands for. */
  function ItemsOf(c: Codec, text: string): Option<seq<Json>> {
    match c.parse(text) case Some(Arr(items)) => Some(items) case _ => None
  }

  /** Of the recent vaults every one stays, in its place, trimmed. */
  lemma RecentVaultsStay(c: Codec, raw: string, before: seq<Json>, i: nat) returns (after: seq<Json>)
    requires Lawful(c) && CleanValue(c, RECENT, raw).Some? && ItemsOf(c, raw) == Some(before) && i < |before|
    ensures ItemsOf(c, CleanValue(c, RECENT, raw).value) == Some(after)
    ensures |after| == |before| && IsTrimmed(before[i], after[i])
  {
    after := CleanVaults(before);
    assert before[i] in before;
    CleanVaultTrims(before[i]);
    assert after[i] == CleanVault(before[i]);
    assert c.parse(c.render(Arr(after))) == Some(Arr(after));
  }

  /** Of the settings every allowed one stays with its value, and no other. */
  lemma AllowedSettingsStay(c: Codec, raw: string)
    requires Lawful(c) && CleanValue(c, SETTINGS, raw).Some?
    ensures var before, after := c.parse(raw).value, c.parse(CleanValue(c, SETTINGS, raw).value).value;
            && before.Obj? && after.Obj? && after.fields.Keys == before.fields.Keys * ALLOWED
            && forall k :: k in after.fields ==> after.fields[k] == before.fields[k]
  {
    var fields := c.parse(raw).value.fields;
    var kept := map k | k in fields && k in ALLOWED :: fields[k];
    assert c.parse(c.render(Obj(kept))) == Some(Obj(kept));
  }

  /** A theme and the flag stay as they are. */
  lemma ThemeAndFlagStay(c: Codec, key: string, raw: string)
    requires (key == THEME || key == SETUP) && CleanValue(c, key, raw).Some?
    ensures CleanValue(c, key, raw) == Some(raw)
  {}

  /** Values are sanitised one by one, all or none, when they are not too large. */
  lemma SanitizedIff(c: Codec, values: Values, clean: Values)
    ensures Sanitized(c, values) == Some(clean)
            <==> (&& Utf8Len(c.render(ValuesJson(values))) <= 0x40000 && clean.Keys == values.Keys
                  && forall k :: k in values ==> CleanValue(c, k, values[k]) == Some(clean[k]))
  {
    if clean.Keys == values.Keys && (forall k :: k in values ==> CleanValue(c, k, values[k]) == Some(clean[k])) {
      assert AllClean(c, values) && Cleaned(c, values) == clean;
    }
  }

  /** A stored document: schema 1 and the values, as named fields, whatever else is there, or as a pair. */
  predicate IsDocument(j: Json, values: Values) {
    || (j.Obj? && "schema" in j.fields && "values" in j.fields
        && j.fields["schema"] == Int(1) && j.fields["values"] == ValuesJson(values))
    || j == Arr([Int(1), ValuesJson(values)])
  }

  lemma StringMapIff(j: Json, values: Values)
    ensures StringMap(j) == Some(values) <==> j == ValuesJson(values)
  {
    if StringMap(j) == Some(values) { assert j.fields == ValuesJson(values).fields; }
    if j == ValuesJson(values) { assert (map k | k in j.fields :: j.fields[k].s) == values; }
  }

  lemma DocumentIff(j: Json, values: Values)
    ensures ParseDocument(j) == Some((1, values)) <==> IsDocument(j, values)
  {
    if j.Obj? && "values" in j.fields { StringMapIff(j.fields["values"], values); }
    if j.Arr? && |j.items| == 2 {
      StringMapIff(j.items[1], values);
      assert j.items == [j.items[0], j.items[1]];
    }
  }

  /** What a file that is there yields: the sanitised values of its document, when it is a text of at most 256 KiB
      that holds one. */
  lemma StoredIff(c: Codec, text: string, v: Values)
    ensures Stored(c, Contents(text)) == Some(v)
            <==> (&& Utf8Len(text) <= 0x40000 && c.parse(text).Some?
                  && exists values :: IsDocument(c.parse(text).value, values) && Sanitized(c, values) == Some(v))
  {
    if c.parse(text).Some? {
      var j := c.parse(text).value;
      if ParseDocument(j).Some? && ParseDocument(j).value.0 == 1 { DocumentIff(j, ParseDocument(j).value.1); }
      forall values | IsDocument(j, values) ensures ParseDocument(j) == Some((1, values)) { DocumentIff(j, values); }
    }
  }

  /** A file that is not there yields no values, and one that is not text yields an error. */
  lemma StoredElsewhere(c: Codec)
    ensures Stored(c, Missing) == Some(map[]) && Stored(c, NotText) == None
  {}

  /** Each key of either side, with the new value or the stored one. */
  predicate IsMerged(stored: Values, values: Values, initialize: bool, merged: Values) {
    && merged.Keys == stored.Keys + values.Keys
    && forall k :: k in merged ==>
         merged[k] == if k in values && !(initialize && k in stored) then values[k] else stored[k]
  }

  /** An update prefers the new values, and an initialisation the stored ones. */
  lemma MergedIff(stored: Values, values: Values, initialize: bool, merged: Values)
    ensures merged == Merged(stored, values, initialize) <==> IsMerged(stored, values, initialize, merged)
  {
    if IsMerged(stored, values, initialize, merged) {
      var other := Merged(stored, values, initialize);
      assert merged.Keys == other.Keys;
      assert forall k :: k in merged ==> merged[k] == other[k];
    }
  }

  /** What is written over a file: refused exactly when the file or the values are, or the result is too large. */
  lemma ToWriteIff(c: Codec, file: File, values: Values, initialize: bool, written: Values)
    ensures ToWrite(c, file, values, initialize) == Some(written)
            <==> (&& Stored(c, file).Some? && Sanitized(c, values).Some?
                  && Utf8Len(c.render(DocumentJson(written))) <= 0x40000
                  && IsMerged(Stored(c, file).value, Sanitized(c, values).value, initialize, written))
  {
    if Stored(c, file).Some? && Sanitized(c, values).Some? {
      MergedIff(Stored(c, file).value, Sanitized(c, values).value, initialize, written);
    }
  }

  // ---- What the store can hold

  /** A value of one of the four known keys, with nothing in it but what that key is for: the allowed settings,
      at most ten vaults of exactly identifier, name and path, a theme, or a flag. */
  predicate Known(c: Codec, key: string, text: string) {
    || (key == THEME && text in {"dark", "light", "system"})
    || (key == SETUP && text in {"true", "false"})
    || (match c.parse(text)
        case Some(Obj(fields)) => key == SETTINGS && fields.Keys <= ALLOWED
        case Some(Arr(items)) =>
          && key == RECENT && |items| <= 10
          && forall j :: j in items ==> GoodVault(j) && j.fields.Keys == VAULT_FIELDS
        case _ => false)
  }

  lemma CleanIsKnown(c: Codec, key: string, raw: string)
    requires Lawful(c) && CleanValue(c, key, raw).Some?
    ensures Known(c, key, CleanValue(c, key, raw).value)
  {
    if key == RECENT {
      var items := c.parse(raw).value.items;
      var clean := CleanVaults(items);
      forall j | j in clean ensures GoodVault(j) && j.fields.Keys == VAULT_FIELDS {
        var i :| 0 <= i < |clean| && clean[i] == j;
        assert items[i] in items;
      }
      assert c.parse(c.render(Arr(clean))) == Some(Arr(clean));
    } else if key == SETTINGS {
      var fields := c.parse(raw).value.fields;
      var kept := map k | k in fields && k in ALLOWED :: fields[k];
      assert c.parse(c.render(Obj(kept))) == Some(Obj(kept));
    }
  }

  /** Whatever a file contains, and so whatever was written, the store yields nothing else. */
  lemma StoreYieldsOnlyKnown(c: Codec, file: File, key: string)
    requires Lawful(c) && Stored(c, file).Some? && key in Stored(c, file).value
    ensures Known(c, key, Stored(c, file).value[key])
  {
    var stored := Stored(c, file).value;
    StoredIsFixed(c, file);
    assert Cleaned(c, stored)[key] == stored[key];
    CleanIsKnown(c, key, stored[key]);
  }
}
