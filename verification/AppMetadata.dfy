/** The write-behind cache of application metadata over the durable store. */
module AppMetadata {
  import opened Results
  import opened MetadataStore
  import opened Text

  const KEYS: set<string> := {RECENT, SETTINGS, THEME, SETUP}

  /** Explicit reset values, so that a removed key is not migrated again from stale browser data. */
  const RESET: Values := map[SETUP := "false", RECENT := "[]", SETTINGS := "{}", THEME := "system"]

  /** The last rejection, kept until a save succeeds; only a truthy one counts as a failure for flush. */
  datatype Failure = NoFailure | Rejected(truthy: bool)

  /** The cache, its unsaved part, the serial queue of save tasks (so many enqueued, so many finished, and the
      snapshot of the one awaiting the store), and what the store holds durably. */
  datatype State = State(values: Values, pending: Values, enqueued: nat, finished: nat, running: Option<Values>,
                         failure: Failure, durable: Values)

  function AfterPersist(s: State, key: string): State
    requires key in s.values
  {
    s.(pending := s.pending[key := s.values[key]], enqueued := s.enqueued + 1)
  }

  function AfterSet(s: State, key: string, value: string): State {
    AfterPersist(s.(values := s.values[key := value]), key)
  }

  /** The next task begins: it takes a snapshot, or finishes at once when nothing is pending. */
  function AfterStart(s: State): State {
    if s.pending == map[] then s.(finished := s.finished + 1) else s.(running := Some(s.pending))
  }

  /** How the store sanitises one value; none when it refuses the pair. */
  type Cleaner = (string, string) -> Option<string>

  predicate Accepted(clean: Cleaner, values: Values) {
    forall k :: k in values ==> clean(k, values[k]).Some?
  }

  /** What is still pending once a snapshot is saved: the keys whose value has changed since. */
  function StillPending(pending: Values, snapshot: Values): Values {
    map k | k in pending && !(k in snapshot && pending[k] == snapshot[k]) :: pending[k]
  }

  /** The part of a snapshot that a rejected save made durable: any of its keys that can be stored at all. */
  function PartlyStored(clean: Cleaner, snapshot: Values, written: set<string>): Values {
    map k | k in snapshot && k in written && clean(k, snapshot[k]).Some? :: clean(k, snapshot[k]).value
  }

  /** Drops each snapshot entry that is still pending unchanged. */
  method DropSaved(pending: Values, snapshot: Values) returns (left: Values)
    ensures left == StillPending(pending, snapshot)
  {
    left := pending;
    var todo := snapshot.Keys;
    while todo != {}
      invariant todo <= snapshot.Keys && left == StillPending(pending, snapshot - todo)
      decreases |todo|
    {
      var key :| key in todo;
      if key in left && left[key] == snapshot[key] {
        left := left - {key};
      }
      todo := todo - {key};
    }
    assert snapshot - {} == snapshot;
  }

  function AfterSaved(clean: Cleaner, s: State): State
    requires s.running.Some? && Accepted(clean, s.running.value)
  {
    s.(pending := StillPending(s.pending, s.running.value), finished := s.finished + 1, running := None,
       failure := NoFailure, durable := s.durable + PartlyStored(clean, s.running.value, s.running.value.Keys))
  }

  function AfterRejected(clean: Cleaner, s: State, written: set<string>, truthy: bool): State
    requires s.running.Some?
  {
    s.(finished := s.finished + 1, running := None, failure := Rejected(truthy),
       durable := s.durable + PartlyStored(clean, s.running.value, written))
  }

  /** Whether a flush, resuming from its first await, retries before it answers. */
  predicate Retries(s: State) {
    s.failure == Rejected(true) && s.pending != map[]
  }

  // ---- Initialisation

  /** What initialisation offers to the store: stored values first, browser values for the missing keys. */
  function Migrated(stored: Values, legacy: Values): Values {
    map k | k in KEYS && (k in stored || k in legacy) :: if k in stored then stored[k] else legacy[k]
  }

  /** The values after initialising over a file with the given browser contents; none when it fails. */
  function Initialized(c: Codec, file: File, legacy: Values): Option<Values> {
    match Stored(c, file)
    case None => None
    case Some(stored) => ToWrite(c, file, Migrated(stored, legacy), true)
  }

  /** One turn of the migrating loop. */
  lemma MigrateOne(stored: Values, legacy: Values, todo: set<string>, key: string)
    requires key in todo && todo <= KEYS
    ensures var migrated := Migrated(stored, legacy);
            migrated - (todo - {key})
            == if key in stored then (migrated - todo)[key := stored[key]]
               else if key in legacy then (migrated - todo)[key := legacy[key]] else migrated - todo
  {}

  method Migrate(stored: Values, legacy: Values) returns (merged: Values)
    ensures merged == Migrated(stored, legacy)
  {
    merged := map[];
    var todo := KEYS;
    while todo != {}
      invariant todo <= KEYS && merged == Migrated(stored, legacy) - todo
      decreases |todo|
    {
      var key :| key in todo;
      MigrateOne(stored, legacy, todo, key);
      if key in stored {
        merged := merged[key := stored[key]];
      } else if key in legacy {
        merged := merged[key := legacy[key]];
      }
      todo := todo - {key};
    }
    assert Migrated(stored, legacy) - {} == Migrated(stored, legacy);
  }

  /** A successful write to browser storage before the cache is native. */
  datatype Edit = Put(key: string, value: string) | Drop(key: string)

  function Edited(browser: Values, edits: seq<Edit>): Values {
    if edits == [] then browser else
    var before := Edited(browser, edits[..|edits| - 1]);
    match edits[|edits| - 1] case Put(key, value) => before[key := value] case Drop(key) => before - {key}
  }

  /** A successful write of the migrated values leaves the initialised ones in the file. */
  lemma WrittenIsInitialized(c: Codec, file: File, legacy: Values)
    requires Lawful(c) && Stored(c, file).Some?
    ensures var v := Initialized(c, file, legacy);
            && v == ToWrite(c, file, Migrated(Stored(c, file).value, legacy), true)
            && (v.Some? ==> Stored(c, Contents(c.render(DocumentJson(v.value)))) == v)
  {
    if Initialized(c, file, legacy).Some? {
      WrittenReadsBack(c, file, Migrated(Stored(c, file).value, legacy), true);
    }
  }

  predicate Editable(edits: seq<Edit>) { forall e :: e in edits ==> e.key in KEYS }

  // ---- The cache object

  class Cache {
    var values: Values
    var pending: Values
    var native: bool
    var enqueued: nat
    var finished: nat
    var running: Option<Values>
    var failure: Failure
    var browser: Values
    /** What the native store holds. */
    var durable: Values

    function View(): State
      reads this
    {
      State(values, pending, enqueued, finished, running, failure, durable)
    }

    /** Browser storage shows the same values as the cache, where it could be written. */
    ghost predicate Synced(keys: set<string>, unwritable: set<string>)
      reads this
    {
      forall k :: k in keys && k !in unwritable ==>
        (k in browser <==> k in values) && (k in browser ==> browser[k] == values[k])
    }

    constructor (browser: Values)
      ensures !native && View() == State(map[], map[], 0, 0, None, NoFailure, map[]) && this.browser == browser
    {
      values, pending, native, enqueued, finished, running, failure := map[], map[], false, 0, 0, None, NoFailure;
      this.browser, durable := browser, map[];
    }

    /** Reads the store, migrates browser values the store lacks, and reads back what was kept. Browser storage
        may refuse to be read or written, key by key. While each of the three store calls is awaited, other code
        may set and remove items, which reaches browser storage only. */
    method Initialize(store: Store, unreadable: set<string>, unwritable: set<string>,
                      canLoad: bool, fault: Fault, canReload: bool,
                      loading: seq<Edit>, saving: seq<Edit>, reloading: seq<Edit>)
      returns (r: Result<()>)
      requires !native && pending == map[] && running.None? && enqueued == finished == 0 && failure.NoFailure?
      requires Lawful(store.c) && Editable(loading) && Editable(saving) && Editable(reloading)
      modifies this, store
      ensures r.Ok? <==>
              && (old(store.file).Missing? || (canLoad && !fault.CannotRead?)) && (fault.NoFault? || fault.CannotRead?)
              && canReload && Initialized(store.c, old(store.file), Edited(old(browser), loading) - unreadable).Some?
      ensures r.Err? ==> !native && values == old(values)
      ensures r.Ok? ==> native && View() == Fresh(values).state
      ensures r.Ok? ==>
                Some(values) == Initialized(store.c, old(store.file), Edited(old(browser), loading) - unreadable)
      ensures r.Ok? ==> Some(values) == Stored(store.c, store.file)
      ensures r.Ok? ==> Synced(KEYS, unwritable)
    {
      var saved := LoadAndSave(store, unreadable, canLoad, fault, loading, saving);
      if saved.Err? { return saved; }
      r := Adopt(store, unwritable, canReload, reloading);
    }

    /** The first two store calls. */
    method LoadAndSave(store: Store, unreadable: set<string>, canLoad: bool, fault: Fault,
                       loading: seq<Edit>, saving: seq<Edit>)
      returns (r: Result<()>)
      requires !native && Lawful(store.c) && Editable(loading) && Editable(saving)
      modifies this, store
      ensures View() == old(View()) && native == old(native)
      ensures r.Ok? <==>
              && (old(store.file).Missing? || (canLoad && !fault.CannotRead?)) && (fault.NoFault? || fault.CannotRead?)
              && Initialized(store.c, old(store.file), Edited(old(browser), loading) - unreadable).Some?
      ensures r.Ok? ==> !store.file.Missing? && Stored(store.c, store.file).Some?
      ensures r.Ok? ==>
                (Stored(store.c, store.file)
                 == Initialized(store.c, old(store.file), Edited(old(browser), loading) - unreadable))
    {
      var loaded := store.Read(canLoad);
      MakeEdits(loading);
      if loaded.Err? { return Err(loaded.message); }
      var legacy := browser - unreadable;
      var merged := Migrate(loaded.value, legacy);
      WrittenIsInitialized(store.c, store.file, legacy);
      r := store.Write(merged, true, fault);
      MakeEdits(saving);
    }

    /** The third store call, and the change to native values. */
    method Adopt(store: Store, unwritable: set<string>, canReload: bool, reloading: seq<Edit>)
      returns (r: Result<()>)
      requires !native && pending == map[] && running.None? && enqueued == finished == 0 && failure.NoFailure?
      requires Editable(reloading)
      modifies this
      ensures r.Ok? <==> (store.file.Missing? || canReload) && Stored(store.c, store.file).Some?
      ensures r.Err? ==> !native && values == old(values)
      ensures r.Ok? ==> native && View() == Fresh(values).state && Some(values) == Stored(store.c, store.file)
      ensures r.Ok? ==> Synced(KEYS, unwritable)
    {
      var reloaded := store.Read(canReload);
      MakeEdits(reloading);
      if reloaded.Err? { return Err(reloaded.message); }
      values, durable := reloaded.value, reloaded.value;
      native := true;
      SyncBrowser(unwritable);
      r := Ok(());
    }

    method MakeEdits(edits: seq<Edit>)
      requires !native && Editable(edits)
      modifies this
      ensures View() == old(View()) && native == old(native) && browser == Edited(old(browser), edits)
    {
      for i := 0 to |edits|
        invariant View() == old(View()) && native == old(native) && browser == Edited(old(browser), edits[..i])
      {
        assert edits[..i + 1][..i] == edits[..i] && edits[i] in edits;
        match edits[i] {
          case Put(key, value) => var done := SetItem(key, value, true);
          case Drop(key) => var done := RemoveItem(key, true);
        }
      }
      assert edits[..|edits|] == edits;
    }

    method SyncBrowser(unwritable: set<string>)
      modifies this`browser
      ensures Synced(KEYS, unwritable)
    {
      var todo := KEYS;
      while todo != {}
        invariant todo <= KEYS && Synced(KEYS - todo, unwritable)
        decreases |todo|
      {
        var key :| key in todo;
        if key !in unwritable {
          browser := if key in values then browser[key := values[key]] else browser - {key};
        }
        todo := todo - {key};
      }
      assert KEYS - {} == KEYS;
    }

    method GetItem(key: string, readable: bool) returns (r: Result<Option<string>>)
      ensures r.Ok? <==> key in KEYS
      ensures r.Ok? && native ==> r.value == if key in values then Some(values[key]) else None
      ensures r.Ok? && !native ==> r.value == if readable && key in browser then Some(browser[key]) else None
    {
      if key !in KEYS { return Err("Unsupported application metadata key"); }
      if native { return Ok(if key in values then Some(values[key]) else None); }
      r := Ok(if readable && key in browser then Some(browser[key]) else None);
    }

    method Persist(key: string)
      requires key in values
      modifies this`pending, this`enqueued
      ensures View() == AfterPersist(old(View()), key)
    {
      pending := pending[key := values[key]];
      enqueued := enqueued + 1;
    }

    method SetItem(key: string, value: string, writable: bool) returns (r: Result<()>)
      modifies this`values, this`pending, this`enqueued, this`browser
      ensures key !in KEYS ==> r.Err? && View() == old(View()) && browser == old(browser)
      ensures key in KEYS && native ==> r.Ok? && View() == AfterSet(old(View()), key, value)
      ensures key in KEYS && !native ==> View() == old(View()) && (r.Ok? <==> writable)
      ensures key in KEYS ==> browser == if writable then old(browser)[key := value] else old(browser)
    {
      if key !in KEYS { return Err("Unsupported application metadata key"); }
      if !native {
        if !writable { return Err("browser storage is unavailable"); }
        browser := browser[key := value];
        return Ok(());
      }
      values := values[key := value];
      if writable { browser := browser[key := value]; }
      Persist(key);
      r := Ok(());
    }

    method RemoveItem(key: string, writable: bool) returns (r: Result<()>)
      modifies this`values, this`pending, this`enqueued, this`browser
      ensures key !in KEYS ==> r.Err? && View() == old(View()) && browser == old(browser)
      ensures key in KEYS && native ==> r.Ok? && View() == AfterSet(old(View()), key, RESET[key])
      ensures key in KEYS && native ==>
                values[key] == (if key == SETUP then "false" else if key == RECENT then "[]"
                                else if key == SETTINGS then "{}" else "system")
      ensures key in KEYS && !native ==> View() == old(View()) && (r.Ok? <==> writable)
      ensures key in KEYS ==> browser == if writable then old(browser) - {key} else old(browser)
    {
      if key !in KEYS { return Err("Unsupported application metadata key"); }
      if !native {
        if !writable { return Err("browser storage is unavailable"); }
        browser := browser - {key};
        return Ok(());
      }
      values := values[key := RESET[key]];
      if writable { browser := browser - {key}; }
      Persist(key);
      r := Ok(());
    }

    /** The next queued task begins, up to its await of the store. */
    method TaskStarts()
      requires finished < enqueued && running.None?
      modifies this`running, this`finished
      ensures View() == AfterStart(old(View()))
    {
      if |pending| == 0 {
        finished := finished + 1;
        return;
      }
      running := Some(pending);
    }

    /** The store has saved the snapshot: drop from pending what has not changed since. */
    method TaskSaved(clean: Cleaner)
      requires running.Some? && Accepted(clean, running.value)
      modifies this
      ensures View() == AfterSaved(clean, old(View()))
      ensures native == old(native) && browser == old(browser)
    {
      durable := durable + PartlyStored(clean, running.value, running.value.Keys);
      pending := DropSaved(pending, running.value);
      failure, running, finished := NoFailure, None, finished + 1;
    }

    /** The store has rejected the save, having written any part of the snapshot. */
    method TaskRejected(clean: Cleaner, written: set<string>, truthy: bool)
      requires running.Some?
      modifies this
      ensures View() == AfterRejected(clean, old(View()), written, truthy)
      ensures native == old(native) && browser == old(browser)
    {
      durable := durable + PartlyStored(clean, running.value, written);
      failure, running, finished := Rejected(truthy), None, finished + 1;
    }

    /** A flush resumes from its first await: it retries one pending key, or answers. */
    method FlushResumes(retryKey: string) returns (answer: Option<bool>)
      requires Retries(View()) ==> retryKey in pending && retryKey in values
      modifies this`pending, this`enqueued
      ensures answer == if Retries(old(View())) then None else Some(old(failure) != Rejected(true))
      ensures View() == if Retries(old(View())) then AfterPersist(old(View()), retryKey) else old(View())
    {
      if failure == Rejected(true) && |pending| != 0 {
        Persist(retryKey);
        return None;
      }
      answer := Some(failure != Rejected(true));
    }
  }

  // ---- Runs

  /** A write, with the number of the task it enqueued. */
  datatype Write = Write(key: string, value: string, ticket: nat)

  /** A flush call: awaiting the queue as of its call, awaiting it again after a retry, or answered. The second
      number counts the writes made before the call. */
  datatype Flush =
    | Waiting(ticket: nat, writes: nat) | Retrying(ticket: nat, writes: nat) | Returned(writes: nat) | Threw

  /** A state with what a history book would add: all writes, the flush calls, for each key the write that is
      durable, and the writes that the running snapshot took. */
  datatype Book = Book(state: State, log: seq<Write>, flushes: seq<Flush>,
                       settled: map<string, nat>, taken: map<string, nat>)

  datatype Event =
    | Set(key: string, value: string)
    | TaskStarts
    | TaskSaved
    | TaskRejected(written: set<string>, truthy: bool)
    | FlushCalled
    | FlushResumes(call: nat, retryKey: string)

  /** The last write to a key, or -1. */
  function Last(log: seq<Write>, key: string): int {
    if log == [] then -1
    else if log[|log| - 1].key == key then |log| - 1
    else Last(log[..|log| - 1], key)
  }

  predicate Enabled(clean: Cleaner, b: Book, e: Event) {
    var s := b.state;
    match e
    case Set(key, value) => key in KEYS
    case TaskStarts => s.finished < s.enqueued && s.running.None?
    case TaskSaved => s.running.Some? && Accepted(clean, s.running.value)
    case TaskRejected(written, truthy) => s.running.Some?
    case FlushCalled => true
    case FlushResumes(call, retryKey) =>
      && call < |b.flushes| && (b.flushes[call].Waiting? || b.flushes[call].Retrying?)
      && b.flushes[call].ticket <= s.finished
      && (b.flushes[call].Waiting? && Retries(s) ==> retryKey in s.pending && retryKey in s.values)
  }

  function Written(b: Book, key: string, value: string): Book {
    b.(state := AfterSet(b.state, key, value), log := b.log + [Write(key, value, b.state.enqueued + 1)])
  }

  /** What a flush answers with: an error when the last save failed. */
  function Answer(s: State, writes: nat): Flush {
    if s.failure == Rejected(true) then Threw else Returned(writes)
  }

  function Next(clean: Cleaner, b: Book, e: Event): Book
    requires Enabled(clean, b, e)
  {
    var s := b.state;
    match e
    case Set(key, value) => Written(b, key, value)
    case TaskStarts =>
      b.(state := AfterStart(s), taken := map k | k in s.pending && Last(b.log, k) >= 0 :: Last(b.log, k))
    case TaskSaved =>
      var snapshot := s.running.value;
      b.(state := AfterSaved(clean, s),
         settled := b.settled
           + (map k | k in snapshot && k in b.taken :: b.taken[k])
           + (map k | k in snapshot && k in s.pending && s.pending[k] == snapshot[k] && Last(b.log, k) >= 0
                :: Last(b.log, k)))
    case TaskRejected(written, truthy) =>
      b.(state := AfterRejected(clean, s, written, truthy),
         settled := b.settled
           + (map k | k in PartlyStored(clean, s.running.value, written) && k in b.taken :: b.taken[k]))
    case FlushCalled => b.(flushes := b.flushes + [Waiting(s.enqueued, |b.log|)])
    case FlushResumes(call, retryKey) =>
      var flush := b.flushes[call];
      if flush.Waiting? && Retries(s) then
        var s' := AfterPersist(s, retryKey);
        b.(state := s', flushes := b.flushes[call := Retrying(s'.enqueued, flush.writes)])
      else b.(flushes := b.flushes[call := Answer(s, flush.writes)])
  }

  /** Initialisation leaves an empty queue over what the store holds. */
  function Fresh(stored: Values): Book {
    Book(State(stored, map[], 0, 0, None, NoFailure, stored), [], [], map[], map[])
  }

  /** The books reached by a run of events over a store that held the given values. */
  ghost predicate Reached(clean: Cleaner, stored: Values, events: seq<Event>, b: Book)
    decreases |events|
  {
    if events == [] then b == Fresh(stored)
    else
      var k := |events| - 1;
      exists a :: (Reached(clean, stored, events[..k], a) && Enabled(clean, a, events[k])
                   && b == Next(clean, a, events[k]))
  }

  // ---- What every run keeps

  /** The store holds, for this key, the sanitised form of a value. */
  predicate Durable(clean: Cleaner, s: State, key: string, value: string) {
    key in s.durable && clean(key, value) == Some(s.durable[key])
  }

  /** The settled write of a key is the one the store holds. */
  predicate SettledAt(clean: Cleaner, b: Book, k: string)
    requires k in b.settled
  {
    && b.settled[k] <= Last(b.log, k) < |b.log|
    && b.log[b.settled[k]].key == k
    && Durable(clean, b.state, k, b.log[b.settled[k]].value)
  }

  /** The snapshot of the running task took this write of a key, no older than the settled one. */
  predicate TakenAt(b: Book, k: string, value: string) {
    && k in b.taken && b.taken[k] <= Last(b.log, k) < |b.log|
    && b.log[b.taken[k]].key == k && b.log[b.taken[k]].value == value
    && (k in b.settled ==> b.settled[k] <= b.taken[k])
  }

  predicate KeyInv(clean: Cleaner, b: Book, k: string) {
    var s, last := b.state, Last(b.log, k);
    && -1 <= last < |b.log|
    && (last >= 0 ==> b.log[last].key == k && k in s.values && b.log[last].value == s.values[k])
    && (k in s.pending ==> k in s.values && s.pending[k] == s.values[k] && last >= 0)
    && (k in s.values && k !in s.pending ==> Durable(clean, s, k, s.values[k]))
    && (k in b.settled ==> SettledAt(clean, b, k))
    && (k !in s.pending && last >= 0 ==> k in b.settled && b.settled[k] == last)
    && (s.running.Some? && k in s.running.value ==> k in s.pending && TakenAt(b, k, s.running.value[k]))
    && (s.running.Some? && k in s.pending && k !in s.running.value ==> b.log[last].ticket > s.finished + 1)
  }

  /** The write at this place, or a later one to its key, is what the store holds. */
  predicate SettledSince(b: Book, i: nat)
    requires i < |b.log|
  {
    b.log[i].key in b.settled && i <= b.settled[b.log[i].key]
  }

  predicate IndexInv(b: Book, i: nat)
    requires i < |b.log|
  {
    var s, w := b.state, b.log[i];
    && w.ticket <= s.enqueued && i <= Last(b.log, w.key)
    && (s.running.Some? && w.ticket <= s.finished + 1 ==>
          if w.key in s.running.value then w.key in b.taken && i <= b.taken[w.key] else SettledSince(b, i))
    && (s.failure.NoFailure? && w.ticket <= s.finished ==> SettledSince(b, i))
  }

  predicate QueueInv(s: State) {
    && s.finished <= s.enqueued
    && (s.running.Some? ==> s.finished < s.enqueued)
    && (s.pending != map[] ==> s.finished < s.enqueued || s.failure.Rejected?)
  }

  ghost predicate FlushInv(b: Book, f: Flush) {
    match f
    case Threw => true
    case Returned(writes) => writes <= |b.log| && forall i :: 0 <= i < writes ==> SettledSince(b, i)
    case _ => f.writes <= |b.log| && forall i :: 0 <= i < f.writes ==> b.log[i].ticket <= f.ticket
  }

  ghost predicate Inv(clean: Cleaner, b: Book) {
    && QueueInv(b.state)
    && (forall k :: KeyInv(clean, b, k))
    && (forall i :: 0 <= i < |b.log| ==> IndexInv(b, i))
  }

  /** Every rejection so far was truthy, and every flush is truthful. */
  ghost predicate PromisesKept(b: Book) {
    && b.state.failure != Rejected(false)
    && (forall f :: f in b.flushes ==> FlushInv(b, f))
  }

  // ---- A write

  lemma LastOfLonger(log: seq<Write>, w: Write, key: string)
    ensures Last(log + [w], key) == if w.key == key then |log| else Last(log, key)
  {
    assert (log + [w])[..|log|] == log;
  }

  lemma WriteKeepsKey(clean: Cleaner, b: Book, key: string, value: string, k: string)
    requires QueueInv(b.state) && KeyInv(clean, b, k)
    ensures KeyInv(clean, Written(b, key, value), k)
  {
    LastOfLonger(b.log, Write(key, value, b.state.enqueued + 1), k);
  }

  lemma WriteKeepsIndex(clean: Cleaner, b: Book, key: string, value: string, i: nat)
    requires QueueInv(b.state) && i <= |b.log|
    requires i < |b.log| ==> IndexInv(b, i) && KeyInv(clean, b, b.log[i].key)
    ensures IndexInv(Written(b, key, value), i)
  {
    var w := Write(key, value, b.state.enqueued + 1);
    LastOfLonger(b.log, w, if i < |b.log| then b.log[i].key else key);
  }

  // ---- A task

  lemma StartKeepsKey(clean: Cleaner, b: Book, k: string)
    requires QueueInv(b.state) && KeyInv(clean, b, k) && Enabled(clean, b, TaskStarts)
    ensures KeyInv(clean, Next(clean, b, TaskStarts), k)
  {}

  lemma StartKeepsIndex(clean: Cleaner, b: Book, i: nat)
    requires i < |b.log| && IndexInv(b, i) && KeyInv(clean, b, b.log[i].key) && Enabled(clean, b, TaskStarts)
    ensures IndexInv(Next(clean, b, TaskStarts), i)
  {}

  lemma SavedKeepsKey(clean: Cleaner, b: Book, k: string)
    requires QueueInv(b.state) && KeyInv(clean, b, k) && Enabled(clean, b, TaskSaved)
    ensures KeyInv(clean, Next(clean, b, TaskSaved), k)
  {}

  lemma SavedKeepsIndex(clean: Cleaner, b: Book, i: nat)
    requires i < |b.log| && IndexInv(b, i) && KeyInv(clean, b, b.log[i].key) && Enabled(clean, b, TaskSaved)
    ensures IndexInv(Next(clean, b, TaskSaved), i)
  {}

  lemma RejectedKeepsKey(clean: Cleaner, b: Book, written: set<string>, truthy: bool, k: string)
    requires QueueInv(b.state) && KeyInv(clean, b, k) && Enabled(clean, b, TaskRejected(written, truthy))
    ensures KeyInv(clean, Next(clean, b, TaskRejected(written, truthy)), k)
  {}

  lemma RejectedKeepsIndex(clean: Cleaner, b: Book, written: set<string>, truthy: bool, i: nat)
    requires i < |b.log| && IndexInv(b, i) && KeyInv(clean, b, b.log[i].key)
    requires Enabled(clean, b, TaskRejected(written, truthy))
    ensures IndexInv(Next(clean, b, TaskRejected(written, truthy)), i)
  {}

  /** After a successful save, what is still pending was written while the save ran, so a task is queued for it. */
  lemma SavedKeepsQueue(clean: Cleaner, b: Book)
    requires Inv(clean, b) && Enabled(clean, b, TaskSaved)
    ensures QueueInv(Next(clean, b, TaskSaved).state)
  {
    var s, s' := b.state, Next(clean, b, TaskSaved).state;
    if s'.pending != map[] {
      var k :| k in s'.pending;
      assert KeyInv(clean, b, k);
      assert IndexInv(b, Last(b.log, k));
    }
  }

  // ---- A flush

  lemma RetryKeepsKey(clean: Cleaner, b: Book, call: nat, retryKey: string, k: string)
    requires KeyInv(clean, b, k) && KeyInv(clean, b, retryKey) && Enabled(clean, b, FlushResumes(call, retryKey))
    ensures KeyInv(clean, Next(clean, b, FlushResumes(call, retryKey)), k)
  {}

  lemma ResumeKeepsIndex(clean: Cleaner, b: Book, call: nat, retryKey: string, i: nat)
    requires i < |b.log| && IndexInv(b, i) && Enabled(clean, b, FlushResumes(call, retryKey))
    ensures IndexInv(Next(clean, b, FlushResumes(call, retryKey)), i)
  {}

  /** Settled writes only move forward. */
  ghost predicate Advances(b: Book, b': Book) {
    && b.log <= b'.log
    && (forall i :: 0 <= i < |b.log| && SettledSince(b, i) ==> SettledSince(b', i))
  }

  lemma FlushInvAdvances(b: Book, b': Book, f: Flush)
    requires FlushInv(b, f) && Advances(b, b')
    ensures FlushInv(b', f)
  {}

  lemma StepAdvances(clean: Cleaner, b: Book, e: Event)
    requires Inv(clean, b) && Enabled(clean, b, e)
    ensures Advances(b, Next(clean, b, e))
  {
    forall i | 0 <= i < |b.log| && SettledSince(b, i) ensures SettledSince(Next(clean, b, e), i) {
      assert KeyInv(clean, b, b.log[i].key);
      assert IndexInv(b, i);
    }
  }

  /** The heart of flush: once the awaited tasks are done and no failure is recorded, all writes made before the
      call are settled. */
  lemma AnswerIsTruthful(clean: Cleaner, b: Book, call: nat)
    requires Inv(clean, b) && PromisesKept(b)
    requires call < |b.flushes| && (b.flushes[call].Waiting? || b.flushes[call].Retrying?)
    requires b.flushes[call].ticket <= b.state.finished
    ensures FlushInv(b, Answer(b.state, b.flushes[call].writes))
  {
    var f := b.flushes[call];
    assert FlushInv(b, f);
    forall i | 0 <= i < f.writes && b.state.failure.NoFailure? ensures SettledSince(b, i) {
      assert IndexInv(b, i);
    }
  }

  lemma StepKeepsFlushes(clean: Cleaner, b: Book, e: Event, f: Flush)
    requires Inv(clean, b) && PromisesKept(b) && Enabled(clean, b, e) && f in Next(clean, b, e).flushes
    ensures FlushInv(Next(clean, b, e), f)
  {
    var b' := Next(clean, b, e);
    StepAdvances(clean, b, e);
    if f in b.flushes {
      FlushInvAdvances(b, b', f);
    } else if e.FlushCalled? {
      forall i | 0 <= i < |b.log| ensures b.log[i].ticket <= b.state.enqueued { assert IndexInv(b, i); }
    } else {
      var asked := b.flushes[e.call];
      assert FlushInv(b, asked);
      if !(asked.Waiting? && Retries(b.state)) {
        AnswerIsTruthful(clean, b, e.call);
        FlushInvAdvances(b, b', f);
      }
    }
  }

  // ---- Every run

  lemma StepKeepsKeys(clean: Cleaner, b: Book, e: Event, k: string)
    requires Inv(clean, b) && Enabled(clean, b, e)
    ensures KeyInv(clean, Next(clean, b, e), k)
  {
    match e
    case Set(key, value) => WriteKeepsKey(clean, b, key, value, k);
    case TaskStarts => StartKeepsKey(clean, b, k);
    case TaskSaved => SavedKeepsKey(clean, b, k);
    case TaskRejected(written, truthy) => RejectedKeepsKey(clean, b, written, truthy, k);
    case FlushCalled =>
    case FlushResumes(call, retryKey) => RetryKeepsKey(clean, b, call, retryKey, k);
  }

  lemma StepKeepsIndices(clean: Cleaner, b: Book, e: Event, i: nat)
    requires Inv(clean, b) && Enabled(clean, b, e)
    requires i < |Next(clean, b, e).log|
    ensures IndexInv(Next(clean, b, e), i)
  {
    if i < |b.log| { assert IndexInv(b, i) && KeyInv(clean, b, b.log[i].key); }
    match e
    case Set(key, value) => WriteKeepsIndex(clean, b, key, value, i);
    case TaskStarts => StartKeepsIndex(clean, b, i);
    case TaskSaved => SavedKeepsIndex(clean, b, i);
    case TaskRejected(written, truthy) => RejectedKeepsIndex(clean, b, written, truthy, i);
    case FlushCalled =>
    case FlushResumes(call, retryKey) => ResumeKeepsIndex(clean, b, call, retryKey, i);
  }

  lemma StepKeepsInv(clean: Cleaner, b: Book, e: Event)
    requires Inv(clean, b) && Enabled(clean, b, e)
    ensures Inv(clean, Next(clean, b, e))
  {
    var b' := Next(clean, b, e);
    forall k ensures KeyInv(clean, b', k) { StepKeepsKeys(clean, b, e, k); }
    forall i | 0 <= i < |b'.log| ensures IndexInv(b', i) { StepKeepsIndices(clean, b, e, i); }
    if e.TaskSaved? { SavedKeepsQueue(clean, b); }
  }

  /** Values as they come out of the store. */
  ghost predicate Clean(clean: Cleaner, values: Values) {
    forall k :: k in values ==> clean(k, values[k]) == Some(values[k])
  }

  lemma {:induction false} RunsKeepInv(clean: Cleaner, stored: Values, events: seq<Event>, b: Book)
    requires Clean(clean, stored) && Reached(clean, stored, events, b)
    ensures Inv(clean, b)
    decreases |events|
  {
    if events != [] {
      var k := |events| - 1;
      var a :| Reached(clean, stored, events[..k], a) && Enabled(clean, a, events[k]) && b == Next(clean, a, events[k]);
      RunsKeepInv(clean, stored, events[..k], a);
      StepKeepsInv(clean, a, events[k]);
    }
  }

  /** Rejected saves carry a truthy error. */
  ghost predicate TruthyErrors(events: seq<Event>) {
    forall e: Event :: e in events && e.TaskRejected? ==> e.truthy
  }

  lemma {:induction false} RunsKeepPromises(clean: Cleaner, stored: Values, events: seq<Event>, b: Book)
    requires Clean(clean, stored) && Reached(clean, stored, events, b) && TruthyErrors(events)
    ensures PromisesKept(b)
    decreases |events|
  {
    if events != [] {
      var k := |events| - 1;
      var a :| Reached(clean, stored, events[..k], a) && Enabled(clean, a, events[k]) && b == Next(clean, a, events[k]);
      assert TruthyErrors(events[..k]) && events[k] in events;
      RunsKeepPromises(clean, stored, events[..k], a);
      RunsKeepInv(clean, stored, events[..k], a);
      forall f | f in b.flushes ensures FlushInv(b, f) { StepKeepsFlushes(clean, a, events[k], f); }
    }
  }

  /** In every interleaving, whatever was rejected and however much of it was written: each key is durable with its
      current value or pending with its current value, and while anything is pending a task is queued or
      running, or a failure is recorded. */
  lemma NothingIsLost(clean: Cleaner, stored: Values, events: seq<Event>, b: Book)
    requires Clean(clean, stored) && Reached(clean, stored, events, b)
    ensures var s := b.state;
      && (forall k :: k in s.values ==>
            if k in s.pending then s.pending[k] == s.values[k] else Durable(clean, s, k, s.values[k]))
      && (s.pending != map[] ==> s.finished < s.enqueued || s.failure.Rejected?)
  {
    RunsKeepInv(clean, stored, events, b);
    forall k | k in b.state.values
      ensures if k in b.state.pending then b.state.pending[k] == b.state.values[k]
              else Durable(clean, b.state, k, b.state.values[k])
    {
      assert KeyInv(clean, b, k);
    }
  }

  /** When a flush has returned normally, every write made before its call is durable, or a later write to the
      same key is; and that stays so. */
  lemma FlushedWritesAreDurable(clean: Cleaner, stored: Values, events: seq<Event>, b: Book, writes: nat, i: nat)
    requires Clean(clean, stored) && Reached(clean, stored, events, b) && TruthyErrors(events)
    requires Returned(writes) in b.flushes && i < writes
    ensures writes <= |b.log|
    ensures exists j :: (i <= j < |b.log| && b.log[j].key == b.log[i].key
                         && Durable(clean, b.state, b.log[j].key, b.log[j].value))
  {
    RunsKeepInv(clean, stored, events, b);
    RunsKeepPromises(clean, stored, events, b);
    assert FlushInv(b, Returned(writes));
    assert SettledSince(b, i);
    var key := b.log[i].key;
    assert KeyInv(clean, b, key);
    var j := b.settled[key];
    assert b.log[j].key == key;
  }

  lemma Extend(clean: Cleaner, stored: Values, es: seq<Event>, a: Book, e: Event)
    requires Reached(clean, stored, es, a) && Enabled(clean, a, e)
    ensures Reached(clean, stored, es + [e], Next(clean, a, e))
  {
    assert (es + [e])[..|es|] == es;
  }

  /** A write whose save was rejected, without anything written, leaves it pending only. */
  lemma RejectedWrite(clean: Cleaner, key: string, value: string, truthy: bool) returns (events: seq<Event>, b: Book)
    requires key in KEYS
    ensures Reached(clean, map[], events, b)
    ensures b == Book(State(map[key := value], map[key := value], 1, 1, None, Rejected(truthy), map[]),
                      [Write(key, value, 1)], [], map[], b.taken)
    ensures forall e: Event :: e in events && e.TaskRejected? ==> e.truthy == truthy
  {
    var b0 := Fresh(map[]);
    var b1 := Next(clean, b0, Set(key, value));
    Extend(clean, map[], [], b0, Set(key, value));
    assert b1.state.pending == map[key := value] && b1.state.values == map[key := value];
    assert b1.log == [Write(key, value, 1)];
    assert key in b1.state.pending;
    Extend(clean, map[], [] + [Set(key, value)], b1, TaskStarts);
    var b2 := Next(clean, b1, TaskStarts);
    var e := TaskRejected({}, truthy);
    Extend(clean, map[], [] + [Set(key, value)] + [TaskStarts], b2, e);
    b := Next(clean, b2, e);
    assert PartlyStored(clean, b2.state.running.value, {}) == map[];
    events := [] + [Set(key, value)] + [TaskStarts] + [e];
  }

  /** A falsy rejection defeats flush: called after such a write it returns normally, and the write is lost. */
  lemma FalsyErrorDefeatsFlush(clean: Cleaner, key: string, value: string) returns (events: seq<Event>, b: Book)
    requires key in KEYS
    ensures Reached(clean, map[], events, b) && b.flushes == [Returned(1)]
    ensures b.log == [Write(key, value, 1)] && key !in b.state.durable
    ensures forall e: Event :: e in events && e.TaskRejected? ==> !e.truthy
  {
    var es, a := RejectedWrite(clean, key, value, false);
    Extend(clean, map[], es, a, FlushCalled);
    var called := Next(clean, a, FlushCalled);
    Extend(clean, map[], es + [FlushCalled], called, FlushResumes(0, key));
    events := es + [FlushCalled] + [FlushResumes(0, key)];
    b := Next(clean, called, FlushResumes(0, key));
  }

  /** Rejections come only from an admitted set, known by whether their errors are truthy. */
  ghost predicate Admitted(admitted: set<bool>, events: seq<Event>) {
    forall e: Event :: e in events && e.TaskRejected? ==> e.truthy in admitted
  }

  /** Over some run, a flush that returned normally left the write of this number behind. */
  ghost predicate FlushLoses(clean: Cleaner, admitted: set<bool>, stored: Values, events: seq<Event>, b: Book, i: nat) {
    && Clean(clean, stored) && Reached(clean, stored, events, b) && Admitted(admitted, events)
    && (exists writes: nat :: Returned(writes) in b.flushes && i < writes <= |b.log|)
    && i < |b.log|
    && forall j :: (i <= j < |b.log| && b.log[j].key == b.log[i].key ==>
                    !Durable(clean, b.state, b.log[j].key, b.log[j].value))
  }

  /** The guarantee of flush holds over every run exactly when no admitted rejection is falsy. */
  lemma FlushIsTruthfulIff(clean: Cleaner, admitted: set<bool>)
    ensures (forall stored: Values, events: seq<Event>, b: Book, i: nat ::
               !FlushLoses(clean, admitted, stored, events, b, i))
            <==> false !in admitted
  {
    if false in admitted {
      var events, b := FalsyErrorDefeatsFlush(clean, THEME, "dark");
      assert Admitted(admitted, events);
      assert FlushLoses(clean, admitted, map[], events, b, 0);
    } else {
      forall stored: Values, events: seq<Event>, b: Book, i: nat
        ensures !FlushLoses(clean, admitted, stored, events, b, i) {
        if FlushLoses(clean, admitted, stored, events, b, i) {
          var writes: nat :| Returned(writes) in b.flushes && i < writes <= |b.log|;
          forall e: Event | e in events && e.TaskRejected? ensures e.truthy { assert e.truthy in admitted; }
          FlushedWritesAreDurable(clean, stored, events, b, writes, i);
        }
      }
    }
  }

  // ---- What a flush does

  /** A flush that finds a failure and something unsaved writes a pending key once more, in a task of its own, and
      waits for that task as well. */
  lemma FlushRetries(clean: Cleaner, b: Book, call: nat, key: string)
    requires call < |b.flushes| && b.flushes[call].Waiting? && b.flushes[call].ticket <= b.state.finished
    requires b.state.failure == Rejected(true) && key in b.state.pending && key in b.state.values
    ensures Enabled(clean, b, FlushResumes(call, key))
    ensures Next(clean, b, FlushResumes(call, key))
         == b.(state := b.state.(pending := b.state.pending[key := b.state.values[key]],
                                 enqueued := b.state.enqueued + 1),
               flushes := b.flushes[call := Retrying(b.state.enqueued + 1, b.flushes[call].writes)])
  {}

  /** After a rejection something is unsaved, until a save succeeds. */
  predicate RejectedIsPending(s: State) {
    && (s.failure.Rejected? ==> s.pending != map[])
    && (s.running.Some? ==> s.running.value != map[])
  }

  lemma StepKeepsPending(clean: Cleaner, b: Book, e: Event)
    requires Inv(clean, b) && RejectedIsPending(b.state) && Enabled(clean, b, e)
    ensures RejectedIsPending(Next(clean, b, e).state)
  {
    var s := b.state;
    if s.running.Some? {
      var k :| k in s.running.value;
      assert KeyInv(clean, b, k);
      assert k in s.pending;
    }
    if e.Set? { assert e.key in Next(clean, b, e).state.pending; }
    if e.FlushResumes? && Next(clean, b, e).state != s { assert e.retryKey in Next(clean, b, e).state.pending; }
  }

  lemma {:induction false} RunsKeepPending(clean: Cleaner, stored: Values, events: seq<Event>, b: Book)
    requires Clean(clean, stored) && Reached(clean, stored, events, b)
    ensures RejectedIsPending(b.state)
    decreases |events|
  {
    if events != [] {
      var k := |events| - 1;
      var a :| Reached(clean, stored, events[..k], a) && Enabled(clean, a, events[k]) && b == Next(clean, a, events[k]);
      RunsKeepPending(clean, stored, events[..k], a);
      RunsKeepInv(clean, stored, events[..k], a);
      StepKeepsPending(clean, a, events[k]);
    }
  }

  /** In every run, what a flush makes of the tasks it waited for: it returns when the last save did not fail, it
      tries once more when the save failed and it has not tried yet, and it throws only when the save failed
      after its own retry. */
  lemma FlushThrowsOnlyAfterRetry(clean: Cleaner, stored: Values, events: seq<Event>, b: Book, call: nat, key: string)
    requires Clean(clean, stored) && Reached(clean, stored, events, b)
    requires Enabled(clean, b, FlushResumes(call, key))
    ensures Next(clean, b, FlushResumes(call, key)).flushes[call]
         == if b.state.failure != Rejected(true) then Returned(b.flushes[call].writes)
            else if b.flushes[call].Waiting? then Retrying(b.state.enqueued + 1, b.flushes[call].writes)
            else Threw
  {
    RunsKeepPending(clean, stored, events, b);
  }

  predicate Steps(clean: Cleaner, a: Book, e: Event, b: Book) { Enabled(clean, a, e) && b == Next(clean, a, e) }

  lemma RetrySteps(clean: Cleaner, b: Book, call: nat, key: string) returns (b1: Book, b2: Book)
    requires b.state.finished == b.state.enqueued && b.state.failure == Rejected(true) && b.state.running.None?
    requires call < |b.flushes| && b.flushes[call].Waiting? && b.flushes[call].ticket <= b.state.finished
    requires key in b.state.pending && key in b.state.values && b.state.pending[key] == b.state.values[key]
    ensures Steps(clean, b, FlushResumes(call, key), b1) && Steps(clean, b1, TaskStarts, b2)
    ensures b2.state == b.state.(enqueued := b.state.enqueued + 1, running := Some(b.state.pending))
    ensures b2.flushes == b.flushes[call := Retrying(b.state.enqueued + 1, b.flushes[call].writes)]
  {
    b1 := Next(clean, b, FlushResumes(call, key));
    assert b1.state.pending == b.state.pending;
    b2 := Next(clean, b1, TaskStarts);
  }

  lemma SavedSteps(clean: Cleaner, b2: Book, call: nat, key: string) returns (b3: Book, after: Book)
    requires b2.state.running == Some(b2.state.pending) && Accepted(clean, b2.state.pending)
    requires call < |b2.flushes| && b2.flushes[call].Retrying? && b2.flushes[call].ticket == b2.state.finished + 1
    ensures Steps(clean, b2, TaskSaved, b3) && Steps(clean, b3, FlushResumes(call, key), after)
    ensures after.state.pending == map[] && after.state.failure == NoFailure && after.state.values == b2.state.values
    ensures after.flushes == b2.flushes[call := Returned(b2.flushes[call].writes)]
  {
    b3 := Next(clean, b2, TaskSaved);
    assert b3.state.pending == map[];
    after := Next(clean, b3, FlushResumes(call, key));
  }

  lemma QuietQueue(clean: Cleaner, stored: Values, events: seq<Event>, b: Book, key: string)
    requires Clean(clean, stored) && Reached(clean, stored, events, b) && b.state.finished == b.state.enqueued
    ensures b.state.running.None?
    ensures key in b.state.pending ==> key in b.state.values && b.state.pending[key] == b.state.values[key]
  {
    RunsKeepInv(clean, stored, events, b);
    assert KeyInv(clean, b, key);
  }

  lemma AllIsDurable(clean: Cleaner, stored: Values, events: seq<Event>, b: Book)
    requires Clean(clean, stored) && Reached(clean, stored, events, b) && b.state.pending == map[]
    ensures forall k :: k in b.state.values ==> Durable(clean, b.state, k, b.state.values[k])
  {
    NothingIsLost(clean, stored, events, b);
  }

  /** The updater's retry works: when the queue is quiet after a rejection, a flush that resumes, and whose retry the
      store saves, returns normally; everything is saved then. */
  lemma RetriedFlushReturns(clean: Cleaner, stored: Values, events: seq<Event>, b: Book, call: nat, key: string)
      returns (after: Book)
    requires Clean(clean, stored) && Reached(clean, stored, events, b)
    requires b.state.finished == b.state.enqueued && b.state.failure == Rejected(true)
    requires call < |b.flushes| && b.flushes[call].Waiting? && b.flushes[call].ticket <= b.state.finished
    requires key in b.state.pending && Accepted(clean, b.state.pending)
    ensures Reached(clean, stored,
                    events + [FlushResumes(call, key)] + [TaskStarts] + [TaskSaved] + [FlushResumes(call, key)], after)
    ensures after.flushes == b.flushes[call := Returned(b.flushes[call].writes)]
    ensures after.state.pending == map[] && after.state.failure == NoFailure && after.state.values == b.state.values
    ensures forall k :: k in after.state.values ==> Durable(clean, after.state, k, after.state.values[k])
  {
    QuietQueue(clean, stored, events, b, key);
    var b1, b2 := RetrySteps(clean, b, call, key);
    var b3;
    b3, after := SavedSteps(clean, b2, call, key);
    var es := RetriedRun(clean, stored, events, b, FlushResumes(call, key), b1, b2, b3, after);
    AllIsDurable(clean, stored, es, after);
  }

  lemma RetriedRun(clean: Cleaner, stored: Values, events: seq<Event>, b: Book, e: Event,
                   b1: Book, b2: Book, b3: Book, after: Book) returns (es: seq<Event>)
    requires Reached(clean, stored, events, b) && Steps(clean, b, e, b1) && Steps(clean, b1, TaskStarts, b2)
    requires Steps(clean, b2, TaskSaved, b3) && Steps(clean, b3, e, after)
    ensures es == events + [e] + [TaskStarts] + [TaskSaved] + [e] && Reached(clean, stored, es, after)
  {
    Extend(clean, stored, events, b, e);
    Extend(clean, stored, events + [e], b1, TaskStarts);
    Extend(clean, stored, events + [e] + [TaskStarts], b2, TaskSaved);
    Extend(clean, stored, events + [e] + [TaskStarts] + [TaskSaved], b3, e);
    es := events + [e] + [TaskStarts] + [TaskSaved] + [e];
  }

  /** A task that has something to save awaits the store, and one that has not is finished at once; a task that
      awaited the store is finished by its answer, whatever that is. */
  lemma TasksFinish(clean: Cleaner, b: Book, e: Event)
    requires Enabled(clean, b, e) && (e.TaskStarts? || e.TaskSaved? || e.TaskRejected?)
    ensures var s, s' := b.state, Next(clean, b, e).state;
            && s'.enqueued == s.enqueued && s'.values == s.values
            && (if e.TaskStarts? && s.pending != map[] then s'.finished == s.finished && s'.running == Some(s.pending)
                else s'.finished == s.finished + 1 && s'.running == None)
  {}

  /** So in every run the queue can run empty, even when the store refuses everything from then on: no flush is left
      waiting for ever. */
  lemma {:induction false} QueueRunsEmpty(clean: Cleaner, stored: Values, events: seq<Event>, b: Book)
      returns (all: seq<Event>, after: Book)
    requires Clean(clean, stored) && Reached(clean, stored, events, b)
    ensures Reached(clean, stored, all, after) && after.state.finished == after.state.enqueued
    ensures after.state.enqueued == b.state.enqueued && after.state.values == b.state.values
    decreases b.state.enqueued - b.state.finished, if b.state.running.Some? then 0 else 1
  {
    RunsKeepInv(clean, stored, events, b);
    if b.state.finished == b.state.enqueued {
      all, after := events, b;
    } else {
      var e := if b.state.running.Some? then TaskRejected({}, true) else TaskStarts;
      Extend(clean, stored, events, b, e);
      TasksFinish(clean, b, e);
      all, after := QueueRunsEmpty(clean, stored, events + [e], Next(clean, b, e));
    }
  }

  /** A rejected save may have stored any part of its snapshot that can be stored, and stores nothing else. */
  lemma RejectedMayStoreAnyPart(clean: Cleaner, s: State, part: set<string>, truthy: bool)
    requires s.running.Some? && part <= s.running.value.Keys
    requires forall k :: k in part ==> clean(k, s.running.value[k]).Some?
    ensures var durable := AfterRejected(clean, s, part, truthy).durable;
            && durable.Keys == s.durable.Keys + part
            && (forall k :: k in part ==> clean(k, s.running.value[k]) == Some(durable[k]))
            && (forall k :: k in s.durable && k !in part ==> durable[k] == s.durable[k])
  {}

  // ---- The store behind the cache

  function StoreCleaner(c: Codec): Cleaner {
    (key, value) => CleanValue(c, key, value)
  }

  /** A save the store accepts has the effect the runs give it, and keeps the store readable. */
  lemma SaveIsStoreWrite(c: Codec, file: File, s: State)
    requires Lawful(c) && Stored(c, file) == Some(s.durable)
    requires s.running.Some? && ToWrite(c, file, s.running.value, false).Some?
    ensures Accepted(StoreCleaner(c), s.running.value)
    ensures Stored(c, Contents(c.render(DocumentJson(ToWrite(c, file, s.running.value, false).value)))) ==
      Some(AfterSaved(StoreCleaner(c), s).durable)
  {
    WrittenReadsBack(c, file, s.running.value, false);
    CleanedIsStored(c, s.running.value);
  }

  lemma CleanedIsStored(c: Codec, snapshot: Values)
    requires AllClean(c, snapshot)
    ensures Cleaned(c, snapshot) == PartlyStored(StoreCleaner(c), snapshot, snapshot.Keys)
  {}

  lemma StoredKeysAreKnown(c: Codec, file: File)
    requires Stored(c, file).Some?
    ensures Stored(c, file).value.Keys <= KEYS
  {
    if file.Contents? {
      var raw := ParseDocument(c.parse(file.text).value).value.1;
      forall k | k in Stored(c, file).value ensures k in KEYS { assert CleanValue(c, k, raw[k]).Some?; }
    }
  }

  /** Initialising keeps every stored value, and adds exactly the missing keys that the browser has, sanitised. */
  lemma InitializeOnlyAdds(c: Codec, file: File, legacy: Values)
    requires Initialized(c, file, legacy).Some?
    ensures Stored(c, file).Some?
    ensures var stored, v := Stored(c, file).value, Initialized(c, file, legacy).value;
      && v.Keys == stored.Keys + (KEYS * legacy.Keys)
      && (forall k :: k in v ==> Some(v[k]) == if k in stored then Some(stored[k]) else CleanValue(c, k, legacy[k]))
  {
    StoredKeysAreKnown(c, file);
  }

  /** The last edit of a key, if any. */
  function LastEdit(edits: seq<Edit>, key: string): Option<Edit> {
    if edits == [] then None
    else if edits[|edits| - 1].key == key then Some(edits[|edits| - 1])
    else LastEdit(edits[..|edits| - 1], key)
  }

  function Lookup(values: Values, key: string): Option<string> {
    if key in values then Some(values[key]) else None
  }

  lemma {:induction false} EditedAt(browser: Values, edits: seq<Edit>, key: string)
    ensures Lookup(Edited(browser, edits), key)
         == match LastEdit(edits, key)
            case None => Lookup(browser, key)
            case Some(Put(_, value)) => Some(value)
            case Some(Drop(_)) => None
  {
    if edits != [] { EditedAt(browser, edits[..|edits| - 1], key); }
  }

  lemma {:induction false} LastEditOfTwo(a: seq<Edit>, b: seq<Edit>, key: string)
    ensures LastEdit(a + b, key) == if LastEdit(b, key).Some? then LastEdit(b, key) else LastEdit(a, key)
  {
    if b == [] {
      assert a + b == a;
    } else {
      assert (a + b)[..|a + b| - 1] == a + b[..|b| - 1];
      LastEditOfTwo(a, b[..|b| - 1], key);
    }
  }

  function StartedOver(c: Codec, file: File, browser: Values, unreadable: set<string>, loading: seq<Edit>)
    : Option<Values>
  {
    Initialized(c, file, Edited(browser, loading) - unreadable)
  }

  lemma StartedValue(c: Codec, file: File, browser: Values, unreadable: set<string>, loading: seq<Edit>, key: string)
    requires key in KEYS && StartedOver(c, file, browser, unreadable, loading).Some?
    ensures Stored(c, file).Some?
    ensures Lookup(StartedOver(c, file, browser, unreadable, loading).value, key)
         == if key in Stored(c, file).value then Some(Stored(c, file).value[key])
            else if key in unreadable then None
            else match Lookup(Edited(browser, loading), key)
                 case Some(value) => CleanValue(c, key, value)
                 case None => None
  {
    InitializeOnlyAdds(c, file, Edited(browser, loading) - unreadable);
  }

  /** Of the writes that other code makes while the cache starts, those made while the store is saved or read
      back leave no trace in its values. One made while the store is first read makes a difference to them
      exactly when browser storage can be read, the store has no value for that key, and no later write to
      the key is made before the reading ends. */
  lemma WriteWhileStartingMattersIff(c: Codec, file: File, browser: Values, unreadable: set<string>,
                                     before: seq<Edit>, key: string, value: string, other: string, behind: seq<Edit>)
    requires key in KEYS && CleanValue(c, key, value) != CleanValue(c, key, other)
    requires StartedOver(c, file, browser, unreadable, before + [Put(key, value)] + behind).Some?
    requires StartedOver(c, file, browser, unreadable, before + [Put(key, other)] + behind).Some?
    ensures Stored(c, file).Some?
    ensures var one := StartedOver(c, file, browser, unreadable, before + [Put(key, value)] + behind).value;
            var two := StartedOver(c, file, browser, unreadable, before + [Put(key, other)] + behind).value;
            (Lookup(one, key) != Lookup(two, key))
            <==> (key !in unreadable && key !in Stored(c, file).value && LastEdit(behind, key).None?)
  {
    PutThen(c, file, browser, unreadable, before, key, value, behind);
    PutThen(c, file, browser, unreadable, before, key, other, behind);
  }

  lemma PutThen(c: Codec, file: File, browser: Values, unreadable: set<string>,
                before: seq<Edit>, key: string, value: string, behind: seq<Edit>)
    requires key in KEYS && StartedOver(c, file, browser, unreadable, before + [Put(key, value)] + behind).Some?
    ensures Stored(c, file).Some?
    ensures Lookup(StartedOver(c, file, browser, unreadable, before + [Put(key, value)] + behind).value, key)
         == if key in Stored(c, file).value then Some(Stored(c, file).value[key])
            else if key in unreadable then None
            else match LastEdit(behind, key)
                 case Some(Put(_, later)) => CleanValue(c, key, later)
                 case Some(Drop(_)) => None
                 case None => CleanValue(c, key, value)
  {
    var put := before + [Put(key, value)];
    StartedValue(c, file, browser, unreadable, put + behind, key);
    EditedAt(browser, put + behind, key);
    LastEditOfTwo(put, behind, key);
    assert put[|put| - 1] == Put(key, value);
  }

  lemma MigratingNothing(stored: Values, legacy: Values)
    requires stored.Keys <= KEYS && KEYS * legacy.Keys <= stored.Keys
    ensures Migrated(stored, legacy) == stored
  {
    forall k | k in KEYS && k in legacy ensures k in stored { assert k in KEYS * legacy.Keys; }
  }

  lemma FixedIsSanitized(c: Codec, v: Values)
    requires Fixed(c, v) && Fits(c, v)
    ensures Sanitized(c, v) == Some(v)
  {}

  /** Writing back what a file holds is never refused, and changes nothing. */
  lemma WritingBackChangesNothing(c: Codec, file: File, v: Values)
    requires Lawful(c) && Stored(c, file) == Some(v) && Utf8Len(c.render(DocumentJson(v))) <= LIMIT
    ensures ToWrite(c, file, v, true) == Some(v)
  {
    StoredIsFixed(c, file);
    assert Utf8Len(c.render(ValuesJson(v))) < Utf8Len(c.render(DocumentJson(v)));
    FixedIsSanitized(c, v);
    assert Merged(v, v, true) == v;
  }

  /** Initialising again, over browser contents with no key that is still missing, changes nothing and cannot
      be refused. */
  lemma InitializeTwice(c: Codec, file: File, legacy: Values, later: Values)
    requires Lawful(c) && Initialized(c, file, legacy).Some?
    requires KEYS * later.Keys <= Initialized(c, file, legacy).value.Keys
    ensures var v := Initialized(c, file, legacy).value;
      Initialized(c, Contents(c.render(DocumentJson(v))), later) == Some(v)
  {
    var v := Initialized(c, file, legacy).value;
    var again := Contents(c.render(DocumentJson(v)));
    WrittenReadsBack(c, file, Migrated(Stored(c, file).value, legacy), true);
    StoredIsFixed(c, again);
    StoredKeysAreKnown(c, again);
    MigratingNothing(v, later);
    WritingBackChangesNothing(c, again, v);
  }

  lemma ResetIsClean(c: Codec, key: string)
    requires Lawful(c) && key in KEYS
    ensures CleanValue(c, key, RESET[key]) == Some(RESET[key])
  {
    if key == RECENT {
      assert c.parse("[]") == Some(Arr([]));
      assert CleanVaults([]) == [];
    } else if key == SETTINGS {
      assert c.parse("{}") == Some(Obj(map[]));
    }
  }

  /** Once a removal has been saved, any later start, whatever stale values the browser still has, sees the
      reset value. */
  lemma RemovedStaysRemoved(c: Codec, stored: Values, events: seq<Event>, b: Book, key: string,
                            file: File, legacy: Values)
    requires Lawful(c) && Clean(StoreCleaner(c), stored) && Reached(StoreCleaner(c), stored, events, b)
    requires key in KEYS && key in b.state.values && b.state.values[key] == RESET[key] && key !in b.state.pending
    requires Stored(c, file) == Some(b.state.durable) && Initialized(c, file, legacy).Some?
    ensures key in Initialized(c, file, legacy).value && Initialized(c, file, legacy).value[key] == RESET[key]
  {
    NothingIsLost(StoreCleaner(c), stored, events, b);
    ResetIsClean(c, key);
    InitializeOnlyAdds(c, file, legacy);
  }
}
