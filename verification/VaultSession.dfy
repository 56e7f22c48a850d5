/** The vault manager as a session over one file: what it read, what it changed in memory, and what it may
    write. A change is known by its number. */
module VaultSession {
  import opened Results

  /** A vault file: its revision, and the changes its content holds. */
  datatype File = File(revision: nat, holds: set<nat>)

  /** An unlocked vault: the revision it last read or wrote, and the changes in its memory. */
  datatype Session = Session(seen: nat, memory: set<nat>)

  datatype Opened = Opened(file: File, session: Session)

  /** What the disk does with a save: it works, it leaves the file alone, or the file is replaced and an
      error comes back all the same, before or after the session has noted the new revision. */
  datatype Save = Works | Fails | Torn(noted: bool)

  /** What becomes of a change: a refusal, or the entry changed, whether the change saves itself, whether the
      content differs at all, and how the save inside the change and the caller's own save fare. */
  datatype Work = Work(outcome: Result<nat>, saves: bool, content: bool, first: Save, second: Save)

  const STALE := "Vault changed in another session; reload or unlock again before saving"
  const UNSAVED := "Vault could not be saved"

  function Unlocked(file: File): Session { Session(file.revision, file.holds) }

  /** A session may only replace the revision it knows. */
  predicate Current(k: Opened) { k.session.seen == k.file.revision }

  predicate Replaces(k: Opened, save: Save) { Current(k) && !save.Fails? }

  predicate Succeeds(k: Opened, save: Save) { Current(k) && save.Works? }

  function Saved(k: Opened, save: Save): Opened {
    if Replaces(k, save) then
      var next := k.file.revision + 1;
      Opened(File(next, k.session.memory),
             k.session.(seen := if save == Torn(false) then k.session.seen else next))
    else k
  }

  /** A change is kept when its own save succeeds, and taken back from memory when that fails. */
  datatype Outcome = Outcome(vault: Opened, result: Result<nat>, wrote: bool)

  function Added(w: Work, i: nat): set<nat> { if w.content then {i} else {} }

  function Changed(k: Opened, i: nat, w: Work): Outcome {
    if w.outcome.Err? || !w.saves then Outcome(k, w.outcome, false)
    else
      var c := k.(session := k.session.(memory := k.session.memory + Added(w, i)));
      var s := Saved(c, w.first);
      if Succeeds(c, w.first) then Outcome(s, w.outcome, true)
      else Outcome(s.(session := s.session.(memory := k.session.memory)),
                   Err(if Current(k) then UNSAVED else STALE), Replaces(c, w.first))
  }

  /** A change followed by the caller's save: whether the file was replaced, and whether that last save
      succeeded. */
  datatype Managed = Managed(vault: Opened, result: Result<nat>, wrote: bool, again: bool)

  function Manage(k: Opened, i: nat, w: Work): Managed {
    var o := Changed(k, i, w);
    if o.result.Err? then Managed(o.vault, o.result, o.wrote, false)
    else Managed(Saved(o.vault, w.second), o.result, o.wrote || Replaces(o.vault, w.second),
                 Succeeds(o.vault, w.second))
  }

  /** The manager with the file behind it. */
  class Manager {
    var file: File
    var session: Session

    constructor (file: File, session: Session)
      ensures View() == Opened(file, session)
    {
      this.file, this.session := file, session;
    }

    function View(): Opened
      reads this
    {
      Opened(file, session)
    }

    method SaveVault(save: Save) returns (r: Result<()>)
      modifies this
      ensures View() == Saved(old(View()), save) && (r.Ok? <==> Succeeds(old(View()), save))
      ensures r.Err? ==> r.message == if Current(old(View())) then UNSAVED else STALE
    {
      if file.revision != session.seen {
        return Err(STALE);
      }
      match save {
        case Fails => r := Err(UNSAVED);
        case Torn(noted) =>
          file := File(file.revision + 1, session.memory);
          if noted { session := session.(seen := file.revision); }
          r := Err(UNSAVED);
        case Works =>
          file := File(file.revision + 1, session.memory);
          session := session.(seen := file.revision);
          r := Ok(());
      }
    }

    /** Changes memory and saves; when the save fails, memory is as it was. */
    method Change(i: nat, w: Work) returns (r: Result<nat>)
      modifies this
      ensures var o := Changed(old(View()), i, w); View() == o.vault && r == o.result
    {
      if w.outcome.Err? || !w.saves {
        return w.outcome;
      }
      var memory := session.memory;
      session := session.(memory := memory + Added(w, i));
      var saved := SaveVault(w.first);
      if saved.Err? {
        session := session.(memory := memory);
        return Err(saved.message);
      }
      r := w.outcome;
    }
  }

  // ---- What a change and its saves do to the file

  /** The file is replaced only by a current session and only by its memory; a change not kept leaves memory
      as it was. */
  predicate Sound(k: Opened, i: nat, content: bool, r: Managed) {
    var added := if content then {i} else {};
    && r.vault.session.seen <= r.vault.file.revision
    && (!r.wrote ==> r.vault == k && !r.again && (content ==> r.result.Err?))
    && (r.wrote ==>
          && Current(k) && r.vault.file.revision > k.file.revision
          && r.vault.file.holds == k.session.memory + added
          && r.vault.session.memory == k.session.memory + (if r.result.Ok? then added else {}))
    && (r.again ==> r.wrote && r.result.Ok?)
  }

  lemma ManageIsSound(k: Opened, i: nat, w: Work)
    requires k.session.seen <= k.file.revision && (w.content ==> w.saves)
    ensures Sound(k, i, w.content, Manage(k, i, w))
  {
    assert k.session.memory + {} == k.session.memory;
  }

  /** A save leaves the session able to save again exactly when the file was not replaced, or the session has noted
      the new revision: one whose error comes in between strands itself. */
  lemma SaveStrandsItselfIff(k: Opened, save: Save)
    requires Current(k)
    ensures !Current(Saved(k, save)) <==> save == Torn(false)
    ensures Saved(k, save).file == k.file <==> save == Fails
    ensures save != Fails ==> Saved(k, save).file == File(k.file.revision + 1, k.session.memory)
  {}

  /** A session left behind by another write never writes again, and reports so: it refuses every change that
      saves itself. */
  lemma StaleSessionIsHarmless(k: Opened, i: nat, w: Work)
    requires !Current(k)
    ensures var r := Manage(k, i, w);
            r.vault == k && !r.wrote && !r.again && (w.outcome.Ok? && w.saves ==> r.result == Err(STALE))
  {}

  /** A change that saves itself is reported kept exactly when its own save succeeded, whatever the second
      does; and then file and memory hold what it changed. */
  lemma KeptIffSaved(k: Opened, i: nat, w: Work)
    requires w.outcome.Ok? && w.saves
    ensures var r := Manage(k, i, w);
            && (r.result.Ok? <==> Current(k) && w.first.Works?)
            && (r.result.Ok? ==> Added(w, i) <= r.vault.file.holds && Added(w, i) <= r.vault.session.memory)
            && (r.result.Err? ==> r.vault.session.memory == k.session.memory)
            && (r.result.Err? ==> r.result == Err(if Current(k) then UNSAVED else STALE))
  {
    if Current(k) && w.first.Works? {
      assert Added(w, i) <= Changed(k, i, w).vault.file.holds;
    }
  }
}
