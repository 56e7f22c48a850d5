/** The two searches of the vault session for SSH keys: the one that lists identities and the one that
    signs for one of them. */
module SshIdentities {
  import opened Bits
  import opened Results
  import opened SshWire
  import opened SshKeyParser
  import Agent = SshAgent
  import Strings = Text

  datatype Attachment = Attachment(name: string, text: Option<string>)

  /** An entry as read back from the vault. */
  datatype Entry = Entry(title: string, username: string, passkeyPublic: Option<seq<byte>>, password: string,
                         notes: string, fields: seq<string>, attachments: seq<Attachment>)

  datatype Kind = SshKey | SecureNote | OtherKind

  datatype Preview = Preview(title: string, kind: Kind, hasPasskey: bool, tags: seq<string>)

  /** A row of the vault: its preview, what reading the entry gives, what reading the private half of its
      passkey gives. */
  datatype Row = Row(preview: Preview, entry: Option<Entry>, passkeyPrivate: Option<seq<byte>>)

  /** What listing the entries gives: a message from a locked vault, or the rows. */
  datatype Vault = Locked(message: string) | Unlocked(rows: seq<Row>)

  /** The foreign code: reading key text, signing, and the UTF-8 form of a comment. */
  datatype Foreign = Foreign(parse: string -> Option<Key>, sign: (Key, seq<byte>) -> Result<seq<byte>>,
                             utf8: string -> seq<byte>)

  predicate CanSign(key: Key) { !key.PublicKeyOnly? }

  predicate StandsAt(s: string, part: string, i: nat) {
    i + |part| <= |s| && s[i..i + |part|] == part
  }

  predicate Contains(s: string, part: string) {
    exists i: nat :: i <= |s| && StandsAt(s, part, i)
  }

  predicate EndsWith(s: string, part: string) {
    |part| <= |s| && s[|s| - |part|..] == part
  }

  predicate IsCandidate(p: Preview) {
    var title := Strings.Lower(p.title);
    || p.kind == SshKey || p.kind == SecureNote || p.hasPasskey
    || Contains(title, "ssh") || Contains(title, "key") || Contains(title, "id_")
    || Contains(title, "server") || Contains(title, "git")
    || exists t :: t in p.tags && (var tag := Strings.Lower(t);
                                   Contains(tag, "ssh") || Contains(tag, "key") || Contains(tag, "server"))
  }

  predicate Inspected(row: Row, total: nat) {
    IsCandidate(row.preview) || total <= 200
  }

  predicate LooksLikeKeyFile(name: string) {
    var lower := Strings.Lower(name);
    Contains(lower, "id_") || EndsWith(lower, ".pem") || EndsWith(lower, ".key") || Contains(lower, "ssh")
  }

  // ---- Where an entry may hold key text

  /** A place that may hold key text, with the comment its key is listed under. */
  datatype Place = Place(text: string, comment: string)

  function EntryComment(e: Entry): string {
    if e.username != "" then e.title + " (" + e.username + ")" else e.title
  }

  function FieldPlaces(fields: seq<string>, comment: string): seq<Place> {
    seq(|fields|, i requires 0 <= i < |fields| => Place(fields[i], comment))
  }

  function FilePlace(file: Attachment, title: string): seq<Place> {
    if LooksLikeKeyFile(file.name) && file.text.Some? then [Place(file.text.value, title + ": " + file.name)] else []
  }

  function FilePlaces(files: seq<Attachment>, title: string): seq<Place> {
    if files == [] then [] else FilePlace(files[0], title) + FilePlaces(files[1..], title)
  }

  function Places(e: Entry): seq<Place> {
    [Place(e.password, EntryComment(e)), Place(e.notes, EntryComment(e))]
    + FieldPlaces(e.fields, EntryComment(e)) + FilePlaces(e.attachments, e.title)
  }

  /** One turn of the loop over attachments. */
  lemma OneFile(places: seq<Place>, files: seq<Attachment>, i: nat, title: string)
    requires i < |files|
    ensures places + FilePlaces(files[i..], title)
         == (places + FilePlace(files[i], title)) + FilePlaces(files[i + 1..], title)
  {
    assert files[i..][1..] == files[i + 1..];
  }

  method KeyFiles(files: seq<Attachment>, title: string) returns (places: seq<Place>)
    ensures places == FilePlaces(files, title)
  {
    places := [];
    for i := 0 to |files|
      invariant places + FilePlaces(files[i..], title) == FilePlaces(files, title)
    {
      OneFile(places, files, i, title);
      places := places + FilePlace(files[i], title);
    }
  }

  /** The signing key in a text, if there is one. */
  function KeyIn(f: Foreign, text: string): Option<Key> {
    match f.parse(text) case Some(key) => if CanSign(key) then Some(key) else None case None => None
  }

  // ---- Listing

  predicate Advertises(ids: seq<Agent.Identity>, blob: seq<byte>) {
    exists i :: 0 <= i < |ids| && ids[i].blob == blob
  }

  function AddPlace(f: Foreign, ids: seq<Agent.Identity>, p: Place): seq<Agent.Identity> {
    match KeyIn(f, p.text)
    case Some(key) =>
      if Advertises(ids, key.blob) then ids else ids + [Agent.Identity(key.blob, f.utf8(p.comment))]
    case None => ids
  }

  function AddPlaces(f: Foreign, ids: seq<Agent.Identity>, places: seq<Place>): seq<Agent.Identity>
    decreases |places|
  {
    if places == [] then ids else AddPlaces(f, AddPlace(f, ids, places[0]), places[1..])
  }

  /** A passkey's public half is listed whenever it is there, twice over if it is there twice. */
  function AddPasskey(f: Foreign, ids: seq<Agent.Identity>, e: Entry): seq<Agent.Identity> {
    match e.passkeyPublic
    case Some(point) => ids + [Agent.Identity(P256Blob(point), f.utf8(EntryComment(e)))]
    case None => ids
  }

  function AddRow(f: Foreign, ids: seq<Agent.Identity>, row: Row, total: nat): seq<Agent.Identity> {
    if Inspected(row, total) && row.entry.Some?
    then AddPlaces(f, AddPasskey(f, ids, row.entry.value), Places(row.entry.value))
    else ids
  }

  function AddRows(f: Foreign, ids: seq<Agent.Identity>, rows: seq<Row>, total: nat): seq<Agent.Identity>
    decreases |rows|
  {
    if rows == [] then ids else AddRows(f, AddRow(f, ids, rows[0], total), rows[1..], total)
  }

  function Identities(f: Foreign, vault: Vault): seq<Agent.Identity> {
    match vault case Locked(_) => [] case Unlocked(rows) => AddRows(f, [], rows, |rows|)
  }

  method EntryPlaces(e: Entry) returns (places: seq<Place>)
    ensures places == Places(e)
  {
    var comment := if e.username != "" then e.title + " (" + e.username + ")" else e.title;
    var files := KeyFiles(e.attachments, e.title);
    places := [Place(e.password, comment), Place(e.notes, comment)] + FieldPlaces(e.fields, comment) + files;
  }

  method ListPlaces(f: Foreign, before: seq<Agent.Identity>, places: seq<Place>) returns (ids: seq<Agent.Identity>)
    ensures ids == AddPlaces(f, before, places)
  {
    ids := before;
    for i := 0 to |places|
      invariant AddPlaces(f, ids, places[i..]) == AddPlaces(f, before, places)
    {
      assert places[i..][1..] == places[i + 1..];
      var parsed := f.parse(places[i].text);
      if parsed.Some? && CanSign(parsed.value) {
        var blob := parsed.value.blob;
        if !(exists k :: 0 <= k < |ids| && ids[k].blob == blob) {
          ids := ids + [Agent.Identity(blob, f.utf8(places[i].comment))];
        }
      }
    }
  }

  method ListEntryKeys(f: Foreign, before: seq<Agent.Identity>, e: Entry) returns (ids: seq<Agent.Identity>)
    ensures ids == AddPlaces(f, AddPasskey(f, before, e), Places(e))
  {
    ids := before;
    if e.passkeyPublic.Some? {
      ids := ids + [Agent.Identity(P256Blob(e.passkeyPublic.value), f.utf8(EntryComment(e)))];
    }
    var places := EntryPlaces(e);
    ids := ListPlaces(f, ids, places);
  }

  method ListIdentities(f: Foreign, vault: Vault) returns (ids: seq<Agent.Identity>)
    ensures ids == Identities(f, vault)
  {
    ids := [];
    if vault.Locked? {
      return;
    }
    var total := |vault.rows|;
    for i := 0 to total
      invariant AddRows(f, ids, vault.rows[i..], total) == Identities(f, vault)
    {
      assert vault.rows[i..][1..] == vault.rows[i + 1..];
      var row := vault.rows[i];
      if !IsCandidate(row.preview) && total > 200 {
        continue;
      }
      if row.entry.Some? {
        ids := ListEntryKeys(f, ids, row.entry.value);
      }
    }
  }

  // ---- Signing

  function FindInPlaces(f: Foreign, places: seq<Place>, blob: seq<byte>): Option<Key> {
    if places == [] then None else
    match KeyIn(f, places[0].text)
    case Some(key) => if key.blob == blob then Some(key) else FindInPlaces(f, places[1..], blob)
    case None => FindInPlaces(f, places[1..], blob)
  }

  /** A row's passkey is usable when both halves are there. */
  function PasskeyFor(row: Row, blob: seq<byte>): Option<Key> {
    match row.entry case None => None case Some(e) =>
    match e.passkeyPublic case None => None case Some(point) =>
    match row.passkeyPrivate case None => None case Some(private) =>
    if row.preview.hasPasskey && P256Blob(point) == blob then Some(P256Key(blob, private)) else None
  }

  function FindInRow(f: Foreign, row: Row, blob: seq<byte>): Option<Key> {
    match row.entry case None => None case Some(e) =>
    match PasskeyFor(row, blob)
    case Some(key) => Some(key)
    case None => FindInPlaces(f, Places(e), blob)
  }

  function FindInRows(f: Foreign, rows: seq<Row>, blob: seq<byte>): Option<Key> {
    if rows == [] then None else
    match FindInRow(f, rows[0], blob)
    case Some(key) => Some(key)
    case None => FindInRows(f, rows[1..], blob)
  }

  datatype Outcome =
    | Signature(bytes: seq<byte>) | SigningFailed(message: string) | NotFound | Unreadable(message: string)

  function SignedWith(f: Foreign, key: Key, data: seq<byte>): Outcome {
    match f.sign(key, data) case Ok(bytes) => Signature(bytes) case Err(message) => SigningFailed(message)
  }

  function Signing(f: Foreign, vault: Vault, blob: seq<byte>, data: seq<byte>): Outcome {
    match vault case Locked(message) => Unreadable(message) case Unlocked(rows) =>
    match FindInRows(f, rows, blob) case Some(key) => SignedWith(f, key, data) case None => NotFound
  }

  method SearchPlaces(f: Foreign, e: Entry, blob: seq<byte>) returns (key: Option<Key>)
    ensures key == FindInPlaces(f, Places(e), blob)
  {
    var places := EntryPlaces(e);
    for i := 0 to |places|
      invariant FindInPlaces(f, places[i..], blob) == FindInPlaces(f, places, blob)
    {
      assert places[i..][1..] == places[i + 1..];
      var parsed := f.parse(places[i].text);
      if parsed.Some? && parsed.value.blob == blob && CanSign(parsed.value) {
        return parsed;
      }
    }
    return None;
  }

  method Sign(f: Foreign, vault: Vault, blob: seq<byte>, data: seq<byte>) returns (outcome: Outcome)
    ensures outcome == Signing(f, vault, blob, data)
  {
    if vault.Locked? {
      return Unreadable(vault.message);
    }
    for i := 0 to |vault.rows|
      invariant FindInRows(f, vault.rows[i..], blob) == FindInRows(f, vault.rows, blob)
    {
      assert vault.rows[i..][1..] == vault.rows[i + 1..];
      var row := vault.rows[i];
      if row.entry.None? {
        continue;
      }
      var e := row.entry.value;
      if row.preview.hasPasskey && e.passkeyPublic.Some? {
        var wireBlob := P256Blob(e.passkeyPublic.value);
        if wireBlob == blob && row.passkeyPrivate.Some? {
          return SignedWith(f, P256Key(wireBlob, row.passkeyPrivate.value), data);
        }
      }
      var key := SearchPlaces(f, e, blob);
      if key.Some? {
        return SignedWith(f, key.value, data);
      }
    }
    return NotFound;
  }

  // ---- The two searches agree

  /** A row that is listed for a blob. */
  predicate Offers(f: Foreign, row: Row, total: nat, blob: seq<byte>) {
    && Inspected(row, total) && row.entry.Some?
    && (ShowsPasskey(row, blob) || FindInPlaces(f, Places(row.entry.value), blob).Some?)
  }

  predicate ShowsPasskey(row: Row, blob: seq<byte>) {
    row.entry.Some? && row.entry.value.passkeyPublic.Some? && P256Blob(row.entry.value.passkeyPublic.value) == blob
  }

  /** A row that shows the public half of a passkey whose private half cannot be used. */
  predicate Dangles(row: Row, blob: seq<byte>) {
    ShowsPasskey(row, blob) && !(row.preview.hasPasskey && row.passkeyPrivate.Some?)
  }

  predicate Usable(f: Foreign, row: Row, blob: seq<byte>) { FindInRow(f, row, blob).Some? }

  lemma AdvertisesSnoc(ids: seq<Agent.Identity>, id: Agent.Identity, blob: seq<byte>)
    ensures Advertises(ids + [id], blob) <==> Advertises(ids, blob) || id.blob == blob
  {
    if Advertises(ids, blob) {
      var i :| 0 <= i < |ids| && ids[i].blob == blob;
      assert (ids + [id])[i].blob == blob;
    }
    assert (ids + [id])[|ids|] == id;
  }

  lemma {:induction false} PlacesAdvertise(f: Foreign, ids: seq<Agent.Identity>, places: seq<Place>, blob: seq<byte>)
    ensures Advertises(AddPlaces(f, ids, places), blob)
            <==> Advertises(ids, blob) || FindInPlaces(f, places, blob).Some?
    decreases |places|
  {
    if places != [] {
      var next := AddPlace(f, ids, places[0]);
      PlacesAdvertise(f, next, places[1..], blob);
      match KeyIn(f, places[0].text) {
        case Some(key) => AdvertisesSnoc(ids, Agent.Identity(key.blob, f.utf8(places[0].comment)), blob);
        case None =>
      }
    }
  }

  lemma RowAdvertises(f: Foreign, ids: seq<Agent.Identity>, row: Row, total: nat, blob: seq<byte>)
    ensures Advertises(AddRow(f, ids, row, total), blob)
            <==> Advertises(ids, blob) || Offers(f, row, total, blob)
  {
    if row.entry.Some? {
      var e := row.entry.value;
      PlacesAdvertise(f, AddPasskey(f, ids, e), Places(e), blob);
      if e.passkeyPublic.Some? {
        AdvertisesSnoc(ids, Agent.Identity(P256Blob(e.passkeyPublic.value), f.utf8(EntryComment(e))), blob);
      }
    }
  }

  lemma {:induction false} RowsAdvertise(f: Foreign, ids: seq<Agent.Identity>, rows: seq<Row>, total: nat,
                                         blob: seq<byte>)
    ensures Advertises(AddRows(f, ids, rows, total), blob)
            <==> (Advertises(ids, blob) || exists i :: 0 <= i < |rows| && Offers(f, rows[i], total, blob))
    decreases |rows|
  {
    if rows != [] {
      RowAdvertises(f, ids, rows[0], total, blob);
      RowsAdvertise(f, AddRow(f, ids, rows[0], total), rows[1..], total, blob);
      if exists i :: 0 <= i < |rows| && Offers(f, rows[i], total, blob) {
        var i :| 0 <= i < |rows| && Offers(f, rows[i], total, blob);
        if i > 0 { assert rows[1..][i - 1] == rows[i]; }
      }
    }
  }

  /** The list names exactly the blobs of the inspected rows. */
  lemma AdvertisedIffOffered(f: Foreign, rows: seq<Row>, blob: seq<byte>)
    ensures Advertises(Identities(f, Unlocked(rows)), blob)
            <==> exists i :: 0 <= i < |rows| && Offers(f, rows[i], |rows|, blob)
  {
    RowsAdvertise(f, [], rows, |rows|, blob);
  }

  /** Signing uses the first usable key of the vault with exactly the blob asked for. */
  lemma {:induction false} FirstUsableSigns(f: Foreign, rows: seq<Row>, blob: seq<byte>) returns (at: nat)
    ensures FindInRows(f, rows, blob) == None ==> forall i :: 0 <= i < |rows| ==> !Usable(f, rows[i], blob)
    ensures FindInRows(f, rows, blob).Some? ==>
              && at < |rows| && FindInRows(f, rows, blob) == FindInRow(f, rows[at], blob)
              && (forall i :: 0 <= i < at ==> !Usable(f, rows[i], blob))
  {
    at := 0;
    if rows != [] && !Usable(f, rows[0], blob) {
      var rest := FirstUsableSigns(f, rows[1..], blob);
      at := rest + 1;
      forall i | 1 <= i < |rows| ensures rows[i] == rows[1..][i - 1] {}
    }
  }

  lemma {:induction false} FoundInPlaces(f: Foreign, places: seq<Place>, blob: seq<byte>)
    ensures FindInPlaces(f, places, blob).Some? ==>
              FindInPlaces(f, places, blob).value.blob == blob && CanSign(FindInPlaces(f, places, blob).value)
  {
    if places != [] { FoundInPlaces(f, places[1..], blob); }
  }

  /** The key it uses has that blob and private material. */
  lemma FoundKeyMatches(f: Foreign, rows: seq<Row>, blob: seq<byte>)
    requires FindInRows(f, rows, blob).Some?
    ensures var key := FindInRows(f, rows, blob).value; key.blob == blob && CanSign(key)
  {
    var at := FirstUsableSigns(f, rows, blob);
    FoundInPlaces(f, Places(rows[at].entry.value), blob);
  }

  lemma FoundIffUsable(f: Foreign, rows: seq<Row>, blob: seq<byte>)
    ensures FindInRows(f, rows, blob).Some? <==> exists i :: 0 <= i < |rows| && Usable(f, rows[i], blob)
  {
    var at := FirstUsableSigns(f, rows, blob);
    if FindInRows(f, rows, blob).Some? { assert Usable(f, rows[at], blob); }
  }

  lemma OfferedIsUsableUnlessDangling(f: Foreign, row: Row, total: nat, blob: seq<byte>)
    ensures Offers(f, row, total, blob) ==> Usable(f, row, blob) || Dangles(row, blob)
    ensures Usable(f, row, blob) && Inspected(row, total) ==> Offers(f, row, total, blob)
  {}

  /** A listed blob is refused by signing exactly when an inspected row shows it as a passkey it has no
      private half for, and no row of the whole vault has a usable key for it. */
  lemma ListedButNotSignableIff(f: Foreign, rows: seq<Row>, blob: seq<byte>, data: seq<byte>)
    ensures (Advertises(Identities(f, Unlocked(rows)), blob) && Signing(f, Unlocked(rows), blob, data) == NotFound)
            <==> (&& (exists i :: 0 <= i < |rows| && Inspected(rows[i], |rows|) && Dangles(rows[i], blob))
                  && (forall j :: 0 <= j < |rows| ==> !Usable(f, rows[j], blob)))
  {
    AdvertisedIffOffered(f, rows, blob);
    FoundIffUsable(f, rows, blob);
    forall i | 0 <= i < |rows|
      ensures Offers(f, rows[i], |rows|, blob) ==> Usable(f, rows[i], blob) || Dangles(rows[i], blob)
      ensures Dangles(rows[i], blob) && Inspected(rows[i], |rows|) ==> Offers(f, rows[i], |rows|, blob)
    {
      OfferedIsUsableUnlessDangling(f, rows[i], |rows|, blob);
    }
  }

  /** So where every passkey shown has its private half, every listed blob is found by signing. */
  lemma ListedIsSignable(f: Foreign, rows: seq<Row>, blob: seq<byte>, data: seq<byte>)
    requires forall i :: 0 <= i < |rows| ==> !Dangles(rows[i], blob)
    requires Advertises(Identities(f, Unlocked(rows)), blob)
    ensures Signing(f, Unlocked(rows), blob, data) != NotFound
    ensures exists key :: (key == FindInRows(f, rows, blob)
                           && key.Some? && key.value.blob == blob && CanSign(key.value)
                           && Signing(f, Unlocked(rows), blob, data) == SignedWith(f, key.value, data))
  {
    ListedButNotSignableIff(f, rows, blob, data);
    FoundKeyMatches(f, rows, blob);
  }

  /** The other way: a blob that can be signed for is missing from the list exactly when no row holding
      a usable key for it is inspected and no inspected row shows it, which needs more than 200 rows. */
  lemma SignableButNotListedIff(f: Foreign, rows: seq<Row>, blob: seq<byte>)
    ensures (FindInRows(f, rows, blob).Some? && !Advertises(Identities(f, Unlocked(rows)), blob))
            <==> (&& |rows| > 200
                  && (exists i :: 0 <= i < |rows| && Usable(f, rows[i], blob))
                  && (forall j :: 0 <= j < |rows| && IsCandidate(rows[j].preview) ==>
                        !Usable(f, rows[j], blob) && !Dangles(rows[j], blob)))
  {
    AdvertisedIffOffered(f, rows, blob);
    FoundIffUsable(f, rows, blob);
    forall i | 0 <= i < |rows|
      ensures Offers(f, rows[i], |rows|, blob)
              <==> Inspected(rows[i], |rows|) && (Usable(f, rows[i], blob) || Dangles(rows[i], blob))
    {
      OfferedIsUsableUnlessDangling(f, rows[i], |rows|, blob);
    }
  }

  // ---- What an entry contributes, told from its fields

  predicate HasKey(f: Foreign, text: string, blob: seq<byte>) {
    f.parse(text).Some? && !f.parse(text).value.PublicKeyOnly? && f.parse(text).value.blob == blob
  }

  predicate FileHasKey(f: Foreign, file: Attachment, blob: seq<byte>) {
    LooksLikeKeyFile(file.name) && file.text.Some? && HasKey(f, file.text.value, blob)
  }

  /** The private key of this blob stands in the password, in the notes, in a custom field, or in an attachment
      named like a key file. */
  predicate HoldsKey(f: Foreign, e: Entry, blob: seq<byte>) {
    || HasKey(f, e.password, blob) || HasKey(f, e.notes, blob)
    || (exists i :: 0 <= i < |e.fields| && HasKey(f, e.fields[i], blob))
    || (exists i :: 0 <= i < |e.attachments| && FileHasKey(f, e.attachments[i], blob))
  }

  /** The public half of a passkey with this blob is part of the entry. */
  predicate HasPasskey(e: Entry, blob: seq<byte>) {
    e.passkeyPublic.Some? && Str(P256) + (Str(CURVE) + Str(e.passkeyPublic.value)) == blob
  }

  lemma {:induction false} FoundInSome(f: Foreign, places: seq<Place>, blob: seq<byte>)
    ensures FindInPlaces(f, places, blob).Some? <==> exists i :: 0 <= i < |places| && HasKey(f, places[i].text, blob)
  {
    if places != [] {
      FoundInSome(f, places[1..], blob);
      if exists i :: 0 <= i < |places| && HasKey(f, places[i].text, blob) {
        var i :| 0 <= i < |places| && HasKey(f, places[i].text, blob);
        if i > 0 { assert places[1..][i - 1] == places[i]; }
      }
      if FindInPlaces(f, places[1..], blob).Some? {
        var i :| 0 <= i < |places[1..]| && HasKey(f, places[1..][i].text, blob);
        assert places[i + 1] == places[1..][i];
      }
    }
  }

  lemma FoundInConcat(f: Foreign, a: seq<Place>, b: seq<Place>, blob: seq<byte>)
    ensures FindInPlaces(f, a + b, blob).Some? <==> FindInPlaces(f, a, blob).Some? || FindInPlaces(f, b, blob).Some?
  {
    FoundInSome(f, a, blob); FoundInSome(f, b, blob); FoundInSome(f, a + b, blob);
    var both := a + b;
    if FindInPlaces(f, a, blob).Some? {
      var i :| 0 <= i < |a| && HasKey(f, a[i].text, blob);
      assert both[i] == a[i];
    }
    if FindInPlaces(f, b, blob).Some? {
      var i :| 0 <= i < |b| && HasKey(f, b[i].text, blob);
      assert both[|a| + i] == b[i];
    }
  }

  lemma {:induction false} FoundInFiles(f: Foreign, files: seq<Attachment>, title: string, blob: seq<byte>)
    ensures FindInPlaces(f, FilePlaces(files, title), blob).Some?
            <==> exists i :: 0 <= i < |files| && FileHasKey(f, files[i], blob)
  {
    if files != [] {
      FoundInFiles(f, files[1..], title, blob);
      FoundInConcat(f, FilePlace(files[0], title), FilePlaces(files[1..], title), blob);
      FoundInSome(f, FilePlace(files[0], title), blob);
      if exists i :: 0 <= i < |files| && FileHasKey(f, files[i], blob) {
        var i :| 0 <= i < |files| && FileHasKey(f, files[i], blob);
        if i > 0 { assert files[1..][i - 1] == files[i]; }
      }
      if exists i :: 0 <= i < |files[1..]| && FileHasKey(f, files[1..][i], blob) {
        var i :| 0 <= i < |files[1..]| && FileHasKey(f, files[1..][i], blob);
        assert files[i + 1] == files[1..][i];
      }
    }
  }

  lemma FoundInFields(f: Foreign, fields: seq<string>, comment: string, blob: seq<byte>)
    ensures FindInPlaces(f, FieldPlaces(fields, comment), blob).Some?
            <==> exists i :: 0 <= i < |fields| && HasKey(f, fields[i], blob)
  {
    var places := FieldPlaces(fields, comment);
    FoundInSome(f, places, blob);
    if exists i :: 0 <= i < |fields| && HasKey(f, fields[i], blob) {
      var i :| 0 <= i < |fields| && HasKey(f, fields[i], blob);
      assert places[i].text == fields[i];
    }
  }

  /** Both searches look at exactly these places. */
  lemma FoundIffHeld(f: Foreign, e: Entry, blob: seq<byte>)
    ensures FindInPlaces(f, Places(e), blob).Some? <==> HoldsKey(f, e, blob)
  {
    var comment := EntryComment(e);
    var two := [Place(e.password, comment), Place(e.notes, comment)];
    FoundInConcat(f, two + FieldPlaces(e.fields, comment), FilePlaces(e.attachments, e.title), blob);
    FoundInConcat(f, two, FieldPlaces(e.fields, comment), blob);
    FoundInFields(f, e.fields, comment, blob);
    FoundInFiles(f, e.attachments, e.title, blob);
    FoundInSome(f, two, blob);
    assert two[0].text == e.password && two[1].text == e.notes;
  }

  /** A blob is listed exactly when some inspected entry has it as a passkey or holds its private key. */
  lemma ListedIffHeld(f: Foreign, rows: seq<Row>, blob: seq<byte>)
    ensures Advertises(Identities(f, Unlocked(rows)), blob)
            <==> exists i :: (0 <= i < |rows| && (|rows| <= 200 || IsCandidate(rows[i].preview)) && rows[i].entry.Some?
                              && (HasPasskey(rows[i].entry.value, blob) || HoldsKey(f, rows[i].entry.value, blob)))
  {
    AdvertisedIffOffered(f, rows, blob);
    forall i | 0 <= i < |rows|
      ensures Offers(f, rows[i], |rows|, blob)
              <==> (&& (|rows| <= 200 || IsCandidate(rows[i].preview)) && rows[i].entry.Some?
                    && (HasPasskey(rows[i].entry.value, blob) || HoldsKey(f, rows[i].entry.value, blob)))
    {
      if rows[i].entry.Some? { FoundIffHeld(f, rows[i].entry.value, blob); }
    }
  }

  /** A row signs for a blob with both halves of its passkey, or with a private key that its entry holds. */
  predicate CanSignFor(f: Foreign, row: Row, blob: seq<byte>) {
    && row.entry.Some?
    && ((row.preview.hasPasskey && HasPasskey(row.entry.value, blob) && row.passkeyPrivate.Some?)
        || HoldsKey(f, row.entry.value, blob))
  }

  /** And a key is found for signing exactly when some entry, inspected or not, can sign. */
  lemma FoundIffCanSign(f: Foreign, rows: seq<Row>, blob: seq<byte>)
    ensures FindInRows(f, rows, blob).Some? <==> exists i :: 0 <= i < |rows| && CanSignFor(f, rows[i], blob)
  {
    FoundIffUsable(f, rows, blob);
    forall i | 0 <= i < |rows| ensures Usable(f, rows[i], blob) <==> CanSignFor(f, rows[i], blob) {
      if rows[i].entry.Some? { FoundIffHeld(f, rows[i].entry.value, blob); }
    }
  }

  // ---- Names

  lemma ContainsIff(s: string, part: string)
    ensures Contains(s, part) <==> exists a, b :: s == a + part + b
  {
    if Contains(s, part) {
      var i: nat :| i <= |s| && StandsAt(s, part, i);
      assert s == s[..i] + part + s[i + |part|..];
    }
    if exists a, b :: s == a + part + b {
      var a, b :| s == a + part + b;
      assert StandsAt(s, part, |a|);
    }
  }

  lemma EndsWithIff(s: string, part: string)
    ensures EndsWith(s, part) <==> exists a :: s == a + part
  {
    if EndsWith(s, part) { assert s == s[..|s| - |part|] + part; }
  }

  /** A file name is taken for a key's, in any letter case, exactly when it has `id_` or `ssh` in it or ends in
      `.pem` or `.key`. */
  lemma LooksLikeKeyFileIff(name: string)
    ensures LooksLikeKeyFile(name)
            <==> (|| (exists a, b :: Strings.Lower(name) == a + "id_" + b)
                  || (exists a, b :: Strings.Lower(name) == a + "ssh" + b)
                  || (exists a :: Strings.Lower(name) == a + ".pem")
                  || (exists a :: Strings.Lower(name) == a + ".key"))
  {
    var lower := Strings.Lower(name);
    ContainsIff(lower, "id_"); ContainsIff(lower, "ssh");
    EndsWithIff(lower, ".pem"); EndsWithIff(lower, ".key");
  }

  ghost predicate Mentions(text: string, words: set<string>) {
    exists word, a, b :: word in words && Strings.Lower(text) == a + word + b
  }

  lemma MentionsIff(text: string, words: set<string>)
    ensures Mentions(text, words) <==> exists word :: word in words && Contains(Strings.Lower(text), word)
  {
    forall word | word in words
      ensures Contains(Strings.Lower(text), word) <==> exists a, b :: Strings.Lower(text) == a + word + b
    {
      ContainsIff(Strings.Lower(text), word);
    }
  }

  /** Which entries are inspected in a large vault. */
  lemma CandidateIff(p: Preview)
    ensures IsCandidate(p)
            <==> (|| p.kind == SshKey || p.kind == SecureNote || p.hasPasskey
                  || Mentions(p.title, {"ssh", "key", "id_", "server", "git"})
                  || exists i :: 0 <= i < |p.tags| && Mentions(p.tags[i], {"ssh", "key", "server"}))
  {
    MentionsIff(p.title, {"ssh", "key", "id_", "server", "git"});
    TitleWords(p.title);
    forall i | 0 <= i < |p.tags|
      ensures Mentions(p.tags[i], {"ssh", "key", "server"})
              <==> (var tag := Strings.Lower(p.tags[i]);
                    Contains(tag, "ssh") || Contains(tag, "key") || Contains(tag, "server"))
    {
      TagWords(p.tags[i]);
    }
  }

  lemma TitleWords(title: string)
    ensures Mentions(title, {"ssh", "key", "id_", "server", "git"})
            <==> (var lower := Strings.Lower(title);
                  Contains(lower, "ssh") || Contains(lower, "key") || Contains(lower, "id_")
                  || Contains(lower, "server") || Contains(lower, "git"))
  {
    MentionsIff(title, {"ssh", "key", "id_", "server", "git"});
    assert {"ssh", "key", "id_", "server", "git"} == {"ssh"} + {"key"} + {"id_"} + {"server"} + {"git"};
  }

  lemma TagWords(tag: string)
    ensures Mentions(tag, {"ssh", "key", "server"})
            <==> (var lower := Strings.Lower(tag);
                  Contains(lower, "ssh") || Contains(lower, "key") || Contains(lower, "server"))
  {
    MentionsIff(tag, {"ssh", "key", "server"});
    assert {"ssh", "key", "server"} == {"ssh"} + {"key"} + {"server"};
  }

  // ---- What stands beside a listed key, and how often it is listed

  /** A listed key names the entry it is from: by title and user, or by title and file name. */
  predicate NamesSource(f: Foreign, e: Entry, id: Agent.Identity) {
    || (&& id.comment == f.utf8(if e.username == "" then e.title else e.title + " (" + e.username + ")")
        && (|| HasPasskey(e, id.blob) || HasKey(f, e.password, id.blob) || HasKey(f, e.notes, id.blob)
            || exists i :: 0 <= i < |e.fields| && HasKey(f, e.fields[i], id.blob)))
    || (exists i :: (&& 0 <= i < |e.attachments| && FileHasKey(f, e.attachments[i], id.blob)
                     && id.comment == f.utf8(e.title + ": " + e.attachments[i].name)))
  }

  predicate RowNames(f: Foreign, row: Row, total: nat, id: Agent.Identity) {
    Inspected(row, total) && row.entry.Some? && NamesSource(f, row.entry.value, id)
  }

  predicate NamesSome(f: Foreign, rows: seq<Row>, total: nat, id: Agent.Identity) {
    exists i :: 0 <= i < |rows| && RowNames(f, rows[i], total, id)
  }

  predicate PlaceNames(f: Foreign, p: Place, id: Agent.Identity) {
    HasKey(f, p.text, id.blob) && id.comment == f.utf8(p.comment)
  }

  lemma {:induction false} AddedByPlaces(f: Foreign, ids: seq<Agent.Identity>, places: seq<Place>, k: nat)
    requires k < |AddPlaces(f, ids, places)|
    ensures var all := AddPlaces(f, ids, places);
            && ids <= all
            && (k >= |ids| ==> exists i :: 0 <= i < |places| && PlaceNames(f, places[i], all[k]))
    decreases |places|
  {
    if places != [] {
      var next := AddPlace(f, ids, places[0]);
      AddedByPlaces(f, next, places[1..], k);
      var all := AddPlaces(f, ids, places);
      if k >= |ids| && k < |next| {
        assert all[k] == next[k] && PlaceNames(f, places[0], all[k]);
      } else if k >= |next| {
        var i :| 0 <= i < |places[1..]| && PlaceNames(f, places[1..][i], all[k]);
        assert places[i + 1] == places[1..][i];
      }
    }
  }

  lemma {:induction false} FileOfPlace(files: seq<Attachment>, title: string, k: nat) returns (i: nat)
    requires k < |FilePlaces(files, title)|
    ensures i < |files| && LooksLikeKeyFile(files[i].name) && files[i].text.Some?
    ensures FilePlaces(files, title)[k] == Place(files[i].text.value, title + ": " + files[i].name)
  {
    var first := FilePlace(files[0], title);
    if k < |first| {
      i := 0;
    } else {
      i := FileOfPlace(files[1..], title, k - |first|);
      i := i + 1;
    }
  }

  lemma PlaceIsNamed(f: Foreign, e: Entry, i: nat, id: Agent.Identity)
    requires i < |Places(e)| && PlaceNames(f, Places(e)[i], id)
    ensures NamesSource(f, e, id)
  {
    var n := 2 + |e.fields|;
    if 2 <= i < n {
      assert Places(e)[i].text == e.fields[i - 2];
    } else if i >= n {
      assert Places(e)[i] == FilePlaces(e.attachments, e.title)[i - n];
      var k := FileOfPlace(e.attachments, e.title, i - n);
      assert FileHasKey(f, e.attachments[k], id.blob);
    }
  }

  lemma {:induction false} PlacesExtend(f: Foreign, ids: seq<Agent.Identity>, places: seq<Place>)
    ensures ids <= AddPlaces(f, ids, places)
    decreases |places|
  {
    if places != [] { PlacesExtend(f, AddPlace(f, ids, places[0]), places[1..]); }
  }

  lemma RowExtends(f: Foreign, ids: seq<Agent.Identity>, row: Row, total: nat)
    ensures ids <= AddRow(f, ids, row, total)
  {
    if row.entry.Some? { PlacesExtend(f, AddPasskey(f, ids, row.entry.value), Places(row.entry.value)); }
  }

  lemma AddedByRow(f: Foreign, ids: seq<Agent.Identity>, row: Row, total: nat, k: nat)
    requires |ids| <= k < |AddRow(f, ids, row, total)|
    ensures RowNames(f, row, total, AddRow(f, ids, row, total)[k])
  {
    var e := row.entry.value;
    var shown := AddPasskey(f, ids, e);
    AddedByPlaces(f, shown, Places(e), k);
    var all := AddRow(f, ids, row, total);
    if k >= |shown| {
      var i :| 0 <= i < |Places(e)| && PlaceNames(f, Places(e)[i], all[k]);
      PlaceIsNamed(f, e, i, all[k]);
    } else {
      assert all[k] == shown[k];
    }
  }

  lemma NamedInRest(f: Foreign, rows: seq<Row>, total: nat, id: Agent.Identity)
    requires rows != [] && NamesSome(f, rows[1..], total, id)
    ensures NamesSome(f, rows, total, id)
  {
    var i :| 0 <= i < |rows[1..]| && RowNames(f, rows[1..][i], total, id);
    assert rows[i + 1] == rows[1..][i];
  }

  lemma {:induction false} AddedByRows(f: Foreign, ids: seq<Agent.Identity>, rows: seq<Row>, total: nat, k: nat)
    requires |ids| <= k < |AddRows(f, ids, rows, total)|
    ensures NamesSome(f, rows, total, AddRows(f, ids, rows, total)[k])
    decreases |rows|
  {
    var next := AddRow(f, ids, rows[0], total);
    if k < |next| {
      AddedByRow(f, ids, rows[0], total, k);
      RowsExtend(f, next, rows[1..], total);
    } else {
      AddedByRows(f, next, rows[1..], total, k);
      NamedInRest(f, rows, total, AddRows(f, next, rows[1..], total)[k]);
    }
  }

  lemma {:induction false} RowsExtend(f: Foreign, ids: seq<Agent.Identity>, rows: seq<Row>, total: nat)
    ensures ids <= AddRows(f, ids, rows, total)
    decreases |rows|
  {
    if rows != [] {
      RowExtends(f, ids, rows[0], total);
      RowsExtend(f, AddRow(f, ids, rows[0], total), rows[1..], total);
    }
  }

  /** Every identity listed stands beside the name of an inspected entry that has it. */
  lemma ListedNamesItsEntry(f: Foreign, rows: seq<Row>, k: nat)
    requires k < |Identities(f, Unlocked(rows))|
    ensures NamesSome(f, rows, |rows|, Identities(f, Unlocked(rows))[k])
  {
    AddedByRows(f, [], rows, |rows|, k);
  }

  predicate AtMostOnce(ids: seq<Agent.Identity>, blob: seq<byte>) {
    forall i, j :: 0 <= i < j < |ids| && ids[i].blob == blob ==> ids[j].blob != blob
  }

  lemma {:induction false} PlacesKeepOnce(f: Foreign, ids: seq<Agent.Identity>, places: seq<Place>, blob: seq<byte>)
    requires AtMostOnce(ids, blob)
    ensures AtMostOnce(AddPlaces(f, ids, places), blob)
    decreases |places|
  {
    if places != [] { PlacesKeepOnce(f, AddPlace(f, ids, places[0]), places[1..], blob); }
  }

  lemma {:induction false} RowsKeepOnce(f: Foreign, ids: seq<Agent.Identity>, rows: seq<Row>, total: nat,
                                        blob: seq<byte>)
    requires AtMostOnce(ids, blob) && forall i :: 0 <= i < |rows| ==> !ShowsPasskey(rows[i], blob)
    ensures AtMostOnce(AddRows(f, ids, rows, total), blob)
    decreases |rows|
  {
    if rows != [] {
      if Inspected(rows[0], total) && rows[0].entry.Some? {
        PlacesKeepOnce(f, AddPasskey(f, ids, rows[0].entry.value), Places(rows[0].entry.value), blob);
      }
      RowsKeepOnce(f, AddRow(f, ids, rows[0], total), rows[1..], total, blob);
    }
  }

  /** A key that no entry shows as a passkey is listed at most once, in however many places it stands. */
  lemma ListedOnce(f: Foreign, rows: seq<Row>, blob: seq<byte>)
    requires forall i :: 0 <= i < |rows| && rows[i].entry.Some? ==> !HasPasskey(rows[i].entry.value, blob)
    ensures AtMostOnce(Identities(f, Unlocked(rows)), blob)
  {
    RowsKeepOnce(f, [], rows, |rows|, blob);
  }

  // ---- Through the agent

  function Session(f: Foreign, vault: Vault): Agent.Session {
    (request: Agent.Request) =>
      match request
      case ListIdentities => Some(Agent.Identities(Identities(f, vault)))
      case Sign(blob, data, _) =>
        match Signing(f, vault, blob, data)
        case Signature(bytes) => Some(Agent.Signed(bytes))
        case _ => Some(Agent.OtherResponse)
  }

  lemma SessionLists(f: Foreign, vault: Vault, packet: seq<byte>)
    requires packet != [] && packet[0] == 11 && Agent.Sendable(Identities(f, vault))
    ensures Agent.ClientReads(Agent.Answer(packet, Session(f, vault))) == Some(Identities(f, vault))
  {
    Agent.ClientReadsIdentities(packet, Session(f, vault));
  }

  lemma SessionSigns(f: Foreign, vault: Vault, blob: seq<byte>, data: seq<byte>, flags: nat, signature: seq<byte>)
    requires |blob| < WORD && |data| < WORD && flags < WORD
    requires Signing(f, vault, blob, data) == Signature(signature)
    ensures Agent.Answer(Agent.SignRequest(blob, data, Word(flags)), Session(f, vault)) == Agent.SignAnswer(signature)
  {
    Agent.SignRequestAnswered(blob, data, flags, Session(f, vault));
  }

  /** A locked vault lists nothing and says why it does not sign. */
  lemma LockedVaultIsSilent(f: Foreign, message: string, blob: seq<byte>, data: seq<byte>)
    ensures Identities(f, Locked(message)) == [] && Signing(f, Locked(message), blob, data) == Unreadable(message)
  {}

  /** A client whose request to sign is not granted, for whatever reason, reads the failure message. */
  lemma RefusedSigningFails(f: Foreign, vault: Vault, blob: seq<byte>, data: seq<byte>, flags: nat)
    requires |blob| < WORD && |data| < WORD && flags < WORD && !Signing(f, vault, blob, data).Signature?
    ensures Agent.Answer(Agent.SignRequest(blob, data, Word(flags)), Session(f, vault)) == [5]
  {
    Agent.SignRequestAnswered(blob, data, flags, Session(f, vault));
  }

  /** An SSH client that reads the list from the agent and asks it to sign with any identity on it gets a
      signature by a stored key with that blob, when every shown passkey is whole and the keys sign. */
  lemma ClientCanUseEveryListedKey(f: Foreign, rows: seq<Row>, packet: seq<byte>, ids: seq<Agent.Identity>,
                                   i: nat, data: seq<byte>, flags: nat) returns (key: Key)
    requires packet != [] && packet[0] == 11 && |data| < WORD && flags < WORD
    requires Agent.Sendable(Identities(f, Unlocked(rows)))
    requires Agent.ClientReads(Agent.Answer(packet, Session(f, Unlocked(rows)))) == Some(ids) && i < |ids|
    requires forall r :: 0 <= r < |rows| ==> !Dangles(rows[r], ids[i].blob)
    requires match FindInRows(f, rows, ids[i].blob) case Some(k) => f.sign(k, data).Ok? case None => true
    ensures FindInRows(f, rows, ids[i].blob) == Some(key) && key.blob == ids[i].blob && CanSign(key)
    ensures Agent.Answer(Agent.SignRequest(ids[i].blob, data, Word(flags)), Session(f, Unlocked(rows)))
         == Agent.SignAnswer(f.sign(key, data).value)
  {
    var vault := Unlocked(rows);
    SessionLists(f, vault, packet);
    assert Advertises(ids, ids[i].blob);
    ListedIsSignable(f, rows, ids[i].blob, data);
    key := FindInRows(f, rows, ids[i].blob).value;
    SessionSigns(f, vault, ids[i].blob, data, flags, f.sign(key, data).value);
  }
}
