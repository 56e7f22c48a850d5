/** Runs of many commands, daemons and late requests over many vault files. */
module IpcRuns {
  import opened Results
  import opened VaultSession
  import opened IpcMutation

  /** A step of the whole system: a command, a daemon that unlocks its vault, a late mutation served, or one
      that never arrives. */
  datatype Step =
    | Start(what: Case)
    | Unlock(daemon: Daemon)
    | Late(at: nat, daemon: Daemon, work: Work)
    | Drop(at: nat)

  /** A finished command: its report, the change it chose and the one it was asked for, whether its own reply
      was replaced, and whether it was misled or misdirected when it ran. */
  datatype Finished = Finished(start: Case, report: Report, chosen: Option<Mutation>, asked: Option<Mutation>,
                               swapped: bool, misled: bool, misdirected: bool)

  /** The shared state and the commands finished so far; a command's mark is its place among them. */
  datatype System = System(state: State, done: seq<Finished>)

  function Without(jobs: seq<Job>, at: nat): seq<Job>
    requires at < |jobs|
  {
    jobs[..at] + jobs[at + 1..]
  }

  function Ended(canon: Canon, y: System, v: Case): Finished {
    var s, tag := y.state, |y.done|;
    Finished(v, Executed(canon, s, tag, v).report, Chosen(canon, s, tag, v), AskedFor(canon, s, tag, v),
             Sends(canon, s, tag, v) && v.fate.Served? && v.fate.reply.Swapped?,
             Misled(canon, s, tag, v), Misdirected(canon, s, tag, v))
  }

  function Unlocking(canon: Canon, s: State, d: Daemon): State {
    s.(sessions := s.sessions[d := DaemonVault(canon, s, d).session])
  }

  function ServedLate(canon: Canon, s: State, at: nat, d: Daemon, w: Work): State
    requires at < |s.waiting|
  {
    var job := s.waiting[at];
    var taken := s.(waiting := Without(s.waiting, at));
    Serve(canon, taken, job.tag, d, Wrapped(job.client, Mutate(job.mutation)), w).state
  }

  function Next(canon: Canon, y: System, step: Step): System {
    match step
    case Start(v) => System(Executed(canon, y.state, |y.done|, v).state, y.done + [Ended(canon, y, v)])
    case Unlock(d) => y.(state := Unlocking(canon, y.state, d))
    case Late(at, d, w) =>
      if at < |y.state.waiting| then y.(state := ServedLate(canon, y.state, at, d, w)) else y
    case Drop(at) =>
      if at < |y.state.waiting| then y.(state := y.state.(waiting := Without(y.state.waiting, at))) else y
  }

  function Reached(canon: Canon, steps: seq<Step>): System {
    if steps == [] then System(State([], [], map[], map[]), [])
    else Next(canon, Reached(canon, steps[..|steps| - 1]), steps[|steps| - 1])
  }

  // ---- What files and sessions hold

  /** Whether a change is on disk, told from the log alone: it has content, and it was kept, or made by a
      command on the file, or its daemon has not written since. */
  predicate OnDisk(log: seq<Event>, i: nat)
    requires i < |log|
  {
    && log[i].content
    && (log[i].kept || log[i].maker.ByFile?
        || forall j :: i < j < |log| && log[j].maker == log[i].maker ==> !log[j].wrote)
  }

  /** The numbers in a file are of its own changes. */
  predicate FileOk(s: State, name: string) {
    forall j :: j in FileAt(s, name).holds ==> j < |s.log| && s.log[j].name == name
  }

  /** A session remembers changes of its file, and of its own only those kept. While it is current, its
      memory is the file, save for its own changes that were not kept. */
  predicate SessionOk(s: State, name: string, k: Opened, maker: Maker) {
    && k.file == FileAt(s, name) && k.session.seen <= k.file.revision
    && (forall j :: j in k.session.memory ==>
          && j < |s.log| && s.log[j].name == name
          && (maker.ByDaemon? && s.log[j].maker == maker ==> s.log[j].kept))
    && (Current(k) ==> forall j :: j in k.session.memory ==> j in k.file.holds)
    && (Current(k) ==> forall j :: j in k.file.holds && j < |s.log| ==>
          j in k.session.memory || (maker.ByDaemon? && s.log[j].maker == maker && !s.log[j].kept))
  }

  predicate EventOk(canon: Canon, s: State, i: nat)
    requires i < |s.log|
  {
    var e := s.log[i];
    && (i in FileAt(s, e.name).holds <==> OnDisk(s.log, i))
    && (match e.maker
        case ByDaemon(d) => d in s.sessions && e.name == Name(canon, d.path)
        case ByFile => true)
  }

  ghost predicate DiskInv(canon: Canon, s: State) {
    && (forall name :: FileOk(s, name))
    && (forall d :: d in s.sessions ==> SessionOk(s, Name(canon, d.path), DaemonVault(canon, s, d), ByDaemon(d)))
    && (forall i :: 0 <= i < |s.log| ==> EventOk(canon, s, i))
  }

  /** A session just opened remembers exactly its file. */
  lemma OpenedIsOk(canon: Canon, s: State, name: string, maker: Maker)
    requires DiskInv(canon, s) && (maker.ByDaemon? ==> maker.daemon !in s.sessions)
    ensures SessionOk(s, name, Opened(FileAt(s, name), Unlocked(FileAt(s, name))), maker)
  {
    assert FileOk(s, name);
    forall j | j in FileAt(s, name).holds ensures maker.ByDaemon? ==> s.log[j].maker != maker {
      assert EventOk(canon, s, j);
    }
  }

  lemma DaemonIsOk(canon: Canon, s: State, d: Daemon)
    requires DiskInv(canon, s)
    ensures SessionOk(s, Name(canon, d.path), DaemonVault(canon, s, d), ByDaemon(d))
  {
    if d !in s.sessions { OpenedIsOk(canon, s, Name(canon, d.path), ByDaemon(d)); }
  }

  // ---- One event

  /** An event with its change of file and session. */
  predicate Applied(canon: Canon, s: State, s': State, e: Event, k: Opened, r: Managed) {
    && s'.log == s.log + [e] && s'.files == s.files[e.name := r.vault.file]
    && s'.sessions == (match e.maker case ByDaemon(d) => s.sessions[d := r.vault.session] case ByFile => s.sessions)
    && (match e.maker
        case ByDaemon(d) => e.name == Name(canon, d.path) && k == DaemonVault(canon, s, d)
        case ByFile => true)
    && e.kept == r.result.Ok? && e.wrote == r.wrote && (e.kept || e.wrote)
    && SessionOk(s, e.name, k, e.maker) && Sound(k, |s.log|, e.content, r)
  }

  lemma AppliedFile(canon: Canon, s: State, s': State, e: Event, k: Opened, r: Managed, name: string)
    requires Applied(canon, s, s', e, k, r) && FileOk(s, name)
    ensures FileOk(s', name)
  {
    forall j | j in FileAt(s', name).holds ensures j < |s'.log| && s'.log[j].name == name {
      if name == e.name && r.wrote {
        assert j in k.session.memory || j == |s.log|;
      } else {
        assert j in FileAt(s, name).holds;
      }
    }
  }

  /** A change kept is on disk at once; the others on disk stay, save those its own daemon had not kept. */
  lemma AppliedEvent(canon: Canon, s: State, s': State, e: Event, k: Opened, r: Managed, i: nat)
    requires Applied(canon, s, s', e, k, r) && FileOk(s, e.name) && i < |s'.log|
    requires i < |s.log| ==> EventOk(canon, s, i)
    ensures EventOk(canon, s', i)
  {
    if i < |s.log| {
      var before := s.log[i];
      assert s'.log[i] == before;
      var mine := before.maker == e.maker && e.wrote;
      assert OnDisk(s'.log, i) <==> OnDisk(s.log, i) && (before.kept || before.maker.ByFile? || !mine) by {
        OnDiskLater(s.log, e, i);
      }
    }
  }

  lemma OnDiskLater(log: seq<Event>, e: Event, i: nat)
    requires i < |log|
    ensures OnDisk(log + [e], i)
            <==> OnDisk(log, i) && (log[i].kept || log[i].maker.ByFile? || !(e.maker == log[i].maker && e.wrote))
  {
    var longer := log + [e];
    assert longer[|log|] == e;
    forall j | i < j < |log| ensures longer[j] == log[j] {}
  }

  lemma AppliedSession(canon: Canon, s: State, s': State, e: Event, k: Opened, r: Managed, d: Daemon)
    requires Applied(canon, s, s', e, k, r) && d in s'.sessions
    requires FileOk(s, e.name) && FileOk(s, Name(canon, d.path))
    requires d in s.sessions ==> SessionOk(s, Name(canon, d.path), DaemonVault(canon, s, d), ByDaemon(d))
    ensures SessionOk(s', Name(canon, d.path), DaemonVault(canon, s', d), ByDaemon(d))
  {
    var v, v' := DaemonVault(canon, s, d), DaemonVault(canon, s', d);
    if e.maker == ByDaemon(d) {
      assert v'.session == r.vault.session && v'.file == r.vault.file;
      forall j | j in v'.session.memory
        ensures j < |s'.log| && s'.log[j].name == e.name && (s'.log[j].maker == e.maker ==> s'.log[j].kept)
      {
        assert j in k.session.memory || (j == |s.log| && e.kept);
      }
      forall j | j in v'.file.holds && j < |s'.log| && Current(v')
        ensures j in v'.session.memory || (s'.log[j].maker == e.maker && !s'.log[j].kept)
      {
        if !r.wrote { assert j in FileAt(s, e.name).holds; }
        if j < |s.log| { assert s'.log[j] == s.log[j]; }
      }
    } else {
      assert v'.session == v.session;
      assert Name(canon, d.path) == e.name && r.wrote ==> !Current(v');
      forall j | j in v'.file.holds && j < |s'.log| && Current(v')
        ensures j in v'.session.memory || (s'.log[j].maker == ByDaemon(d) && !s'.log[j].kept)
      {
        assert j in FileAt(s, Name(canon, d.path)).holds;
      }
    }
  }

  lemma AppliedKeepsDisk(canon: Canon, s: State, s': State, e: Event, k: Opened, r: Managed)
    requires DiskInv(canon, s) && Applied(canon, s, s', e, k, r)
    ensures DiskInv(canon, s')
  {
    forall name ensures FileOk(s', name) {
      assert FileOk(s, name);
      AppliedFile(canon, s, s', e, k, r, name);
    }
    assert FileOk(s, e.name);
    forall i | 0 <= i < |s'.log| ensures EventOk(canon, s', i) {
      AppliedEvent(canon, s, s', e, k, r, i);
    }
    forall d | d in s'.sessions
      ensures SessionOk(s', Name(canon, d.path), DaemonVault(canon, s', d), ByDaemon(d))
    {
      assert FileOk(s, Name(canon, d.path));
      AppliedSession(canon, s, s', e, k, r, d);
    }
  }

  // ---- Every step is one event or none

  predicate Same(s: State, s': State) {
    s'.log == s.log && s'.files == s.files && s'.sessions == s.sessions
  }

  lemma SameKeepsDisk(canon: Canon, s: State, s': State)
    requires DiskInv(canon, s) && Same(s, s')
    ensures DiskInv(canon, s')
  {
    forall name: string ensures FileOk(s', name) {
      assert FileOk(s, name) && FileAt(s', name) == FileAt(s, name);
    }
    forall i | 0 <= i < |s'.log| ensures EventOk(canon, s', i) {
      assert EventOk(canon, s, i) && FileAt(s', s.log[i].name) == FileAt(s, s.log[i].name);
    }
    forall d | d in s'.sessions
      ensures SessionOk(s', Name(canon, d.path), DaemonVault(canon, s', d), ByDaemon(d))
    {
      assert SessionOk(s, Name(canon, d.path), DaemonVault(canon, s, d), ByDaemon(d));
    }
  }

  lemma ServeApplies(canon: Canon, s: State, tag: nat, d: Daemon, client: Client, m: Mutation, w: Work)
      returns (e: Event, k: Opened, r: Managed)
    requires DiskInv(canon, s)
    ensures var s' := Serve(canon, s, tag, d, Wrapped(client, Mutate(m)), w).state;
            s' == s || (Applied(canon, s, s', e, k, r) && e.maker == ByDaemon(d) && e.tag == tag)
  {
    DaemonIsOk(canon, s, d);
    k, r := DaemonVault(canon, s, d), DaemonWork(canon, s, d, m, w);
    ManageIsSound(k, |s.log|, WorkOn(m, w));
    e := Event(tag, Name(canon, d.path), m, ByDaemon(d), WorkOn(m, w).content, r.result.Ok?, r.wrote);
    ServeIsMutation(canon, s, tag, d, client, m, w);
  }

  lemma ServeIsMutation(canon: Canon, s: State, tag: nat, d: Daemon, client: Client, m: Mutation, w: Work)
    ensures var s' := Serve(canon, s, tag, d, Wrapped(client, Mutate(m)), w).state;
            s' == s || s' == ServeMutation(canon, s, tag, d, m, w).state
  {}

  lemma DirectlyApplies(canon: Canon, s: State, tag: nat, client: Client, c: Command, d: Direct)
      returns (e: Event, k: Opened, r: Managed)
    requires DiskInv(canon, s)
    ensures var s' := Directly(canon, s, tag, client, c, d).state;
            s' == s || (Applied(canon, s, s', e, k, r) && e.maker == ByFile && e.tag == tag)
  {
    var name := Name(canon, PathOf(client));
    var m := if OnFile(c, d).Ok? then OnFile(c, d).value else Add("");
    OpenedIsOk(canon, s, name, ByFile);
    k, r := FreshVault(canon, s, PathOf(client)), FileWork(canon, s, PathOf(client), m, d.work);
    ManageIsSound(k, |s.log|, WorkOn(m, d.work));
    e := Event(tag, name, m, ByFile, WorkOn(m, d.work).content, r.result.Ok?, r.wrote);
  }

  lemma SentApplies(canon: Canon, s: State, tag: nat, v: Case, id: nat)
      returns (e: Event, k: Opened, r: Managed)
    requires DiskInv(canon, s)
    ensures var s' := Sent(canon, s, tag, v, id).state;
            Same(s, s') || Applied(canon, s, s', e, k, r)
  {
    var d := if v.fate.Served? then v.fate.daemon else Daemon("", "");
    var w := if v.fate.Served? then v.fate.work else Work(Err(""), false, false, Fails, Fails);
    e, k, r := ServeApplies(canon, s, tag, d, v.client, Wanted(v.command, id), w);
    SentState(canon, s, tag, v, id);
  }

  lemma SentState(canon: Canon, s: State, tag: nat, v: Case, id: nat)
    ensures var s' := Sent(canon, s, tag, v, id).state;
            var m := Wanted(v.command, id);
            if v.fate.Served? then
              s' == Serve(canon, s, tag, v.fate.daemon, Wrapped(v.client, Mutate(m)), v.fate.work).state
            else Same(s, s')
  {}

  lemma NextApplies(canon: Canon, y: System, step: Step) returns (e: Event, k: Opened, r: Managed)
    requires DiskInv(canon, y.state)
    ensures var s' := Next(canon, y, step).state;
            || Same(y.state, s') || Applied(canon, y.state, s', e, k, r)
            || (step.Unlock? && s' == Unlocking(canon, y.state, step.daemon))
  {
    var nowhere := Client("", None, "");
    e, k, r := ServeApplies(canon, y.state, 0, Daemon("", ""), nowhere, Add(""),
                            Work(Err(""), false, false, Fails, Fails));
    match step {
      case Start(v) =>
        var tag := |y.done|;
        RouteTaken(canon, y.state, tag, v);
        if Sends(canon, y.state, tag, v) {
          e, k, r := SentApplies(canon, y.state, tag, v, Found(canon, y.state, tag, v).value);
        } else {
          e, k, r := DirectlyApplies(canon, y.state, tag, v.client, v.command, v.direct);
        }
      case Late(at, d, w) =>
        if at < |y.state.waiting| {
          var job := y.state.waiting[at];
          var taken := y.state.(waiting := Without(y.state.waiting, at));
          SameKeepsDisk(canon, y.state, taken);
          e, k, r := ServeApplies(canon, taken, job.tag, d, job.client, job.mutation, w);
        }
      case Unlock(_) =>
      case Drop(_) =>
    }
  }

  lemma UnlockingKeepsDisk(canon: Canon, s: State, d: Daemon)
    requires DiskInv(canon, s)
    ensures DiskInv(canon, Unlocking(canon, s, d))
  {
    var s' := Unlocking(canon, s, d);
    DaemonIsOk(canon, s, d);
    forall name: string ensures FileOk(s', name) {
      assert FileOk(s, name) && FileAt(s', name) == FileAt(s, name);
    }
    forall i | 0 <= i < |s'.log| ensures EventOk(canon, s', i) {
      assert EventOk(canon, s, i) && FileAt(s', s.log[i].name) == FileAt(s, s.log[i].name);
    }
    forall o | o in s'.sessions
      ensures SessionOk(s', Name(canon, o.path), DaemonVault(canon, s', o), ByDaemon(o))
    {
      if o != d { assert SessionOk(s, Name(canon, o.path), DaemonVault(canon, s, o), ByDaemon(o)); }
    }
  }

  lemma NextKeepsDisk(canon: Canon, y: System, step: Step)
    requires DiskInv(canon, y.state)
    ensures DiskInv(canon, Next(canon, y, step).state)
  {
    var e, k, r := NextApplies(canon, y, step);
    var s' := Next(canon, y, step).state;
    if Same(y.state, s') { SameKeepsDisk(canon, y.state, s'); }
    else if Applied(canon, y.state, s', e, k, r) { AppliedKeepsDisk(canon, y.state, s', e, k, r); }
    else { UnlockingKeepsDisk(canon, y.state, step.daemon); }
  }

  lemma {:induction false} RunsKeepDisk(canon: Canon, steps: seq<Step>)
    ensures DiskInv(canon, Reached(canon, steps).state)
  {
    if steps != [] {
      RunsKeepDisk(canon, steps[..|steps| - 1]);
      NextKeepsDisk(canon, Reached(canon, steps[..|steps| - 1]), steps[|steps| - 1]);
    }
  }

  /** Over every run, a file holds a change exactly when the change has content and was kept by its manager,
      or is the unacknowledged remainder of a failed save that its daemon has not written over since. */
  lemma FilesHoldExactly(canon: Canon, steps: seq<Step>, i: nat)
    requires i < |Reached(canon, steps).state.log|
    ensures var s := Reached(canon, steps).state;
            i in FileAt(s, s.log[i].name).holds <==> OnDisk(s.log, i)
  {
    RunsKeepDisk(canon, steps);
    assert EventOk(canon, Reached(canon, steps).state, i);
  }

  lemma {:induction false} LogGrows(canon: Canon, steps: seq<Step>, more: seq<Step>)
    ensures Reached(canon, steps).state.log <= Reached(canon, steps + more).state.log
    decreases |more|
  {
    if more == [] {
      assert steps + more == steps;
    } else {
      var front, step := more[..|more| - 1], more[|more| - 1];
      LogGrows(canon, steps, front);
      assert (steps + more)[..|steps + more| - 1] == steps + front;
      RunsKeepDisk(canon, steps + front);
      var e, k, r := NextApplies(canon, Reached(canon, steps + front), step);
    }
  }

  /** No write loses a change: what a manager has kept is on disk then and ever after, whatever sessions
      write later, because a session may only replace the revision it knows. */
  lemma KeptChangesStay(canon: Canon, steps: seq<Step>, more: seq<Step>, i: nat)
    requires i < |Reached(canon, steps).state.log|
    requires Reached(canon, steps).state.log[i].kept && Reached(canon, steps).state.log[i].content
    ensures var s := Reached(canon, steps + more).state;
            i < |s.log| && s.log[i] == Reached(canon, steps).state.log[i] && i in FileAt(s, s.log[i].name).holds
  {
    LogGrows(canon, steps, more);
    FilesHoldExactly(canon, steps + more, i);
  }

  // ---- Daemons left behind

  /** A daemon whose file was replaced by someone else since it last read or wrote it. */
  predicate Stale(canon: Canon, s: State, d: Daemon) {
    d in s.sessions && !Current(DaemonVault(canon, s, d))
  }

  /** Any write to a file leaves every other daemon on it behind. */
  lemma WritingStrandsOthers(canon: Canon, s: State, s': State, e: Event, k: Opened, r: Managed, d: Daemon)
    requires DiskInv(canon, s) && Applied(canon, s, s', e, k, r) && e.wrote
    requires d in s.sessions && Name(canon, d.path) == e.name && e.maker != ByDaemon(d)
    ensures Stale(canon, s', d)
  {
    assert SessionOk(s, e.name, DaemonVault(canon, s, d), ByDaemon(d));
  }

  /** So a command that makes its change on the file, as an edit does whose lookup found nothing, leaves
      behind a daemon that has that vault unlocked. */
  lemma FallbackStrandsDaemon(canon: Canon, steps: seq<Step>, tag: nat, client: Client, c: Command, direct: Direct,
                              d: Daemon)
    requires var s := Reached(canon, steps).state;
             && d in s.sessions && Name(canon, d.path) == Name(canon, PathOf(client))
             && Directly(canon, s, tag, client, c, direct).report.result.Ok?
    ensures Stale(canon, Directly(canon, Reached(canon, steps).state, tag, client, c, direct).state, d)
  {
    var s := Reached(canon, steps).state;
    RunsKeepDisk(canon, steps);
    WhatTheFileMakes(canon, s, tag, client, c, direct);
    var e, k, r := DirectlyApplies(canon, s, tag, client, c, direct);
    ManageIsSound(FreshVault(canon, s, PathOf(client)), |s.log|, WorkOn(OnFile(c, direct).value, direct.work));
    WritingStrandsOthers(canon, s, Directly(canon, s, tag, client, c, direct).state, e, k, r, d);
  }

  /** A daemon left behind refuses every change, and changes nothing, except an edit that finds nothing to change:
      that one does not save itself. */
  lemma StaleDaemonRefuses(canon: Canon, s: State, tag: nat, d: Daemon, client: Client, m: Mutation, w: Work)
    requires Stale(canon, s, d) && (m.Update? ==> w.content)
    ensures var service := Serve(canon, s, tag, d, Wrapped(client, Mutate(m)), w);
            service.state == s && service.response.Error?
  {
    StaleSessionIsHarmless(DaemonVault(canon, s, d), |s.log|, WorkOn(m, w));
  }

  /** And that edit it reports done, to a client it serves. */
  lemma StaleDaemonAcceptsEmptyEdit(canon: Canon, s: State, tag: nat, d: Daemon, id: nat, changes: string, w: Work)
    requires Stale(canon, s, d) && d.token != "" && w.outcome.Ok? && !w.content
    ensures Serve(canon, s, tag, d, Envelope(d.token, Mutate(Update(id, changes))), w).response == UpdateSuccess
  {}

  /** From some place in a log on, a daemon made no change of content and replaced no file. */
  predicate Quiet(log: seq<Event>, from: nat, d: Daemon) {
    forall i :: from <= i < |log| && log[i].maker == ByDaemon(d) ==> !log[i].content && !log[i].wrote
  }

  lemma QuietJoins(a: seq<Event>, b: seq<Event>, c: seq<Event>, d: Daemon)
    requires a <= b <= c && Quiet(b, |a|, d) && Quiet(c, |b|, d)
    ensures Quiet(c, |a|, d)
  {
    forall i | |a| <= i < |b| ensures c[i] == b[i] {}
  }

  lemma StaleStays(canon: Canon, y: System, step: Step, d: Daemon)
    requires DiskInv(canon, y.state) && Stale(canon, y.state, d)
    ensures var s' := Next(canon, y, step).state;
            Stale(canon, s', d) && y.state.log <= s'.log && Quiet(s'.log, |y.state.log|, d)
  {
    var s' := Next(canon, y, step).state;
    assert SessionOk(y.state, Name(canon, d.path), DaemonVault(canon, y.state, d), ByDaemon(d));
    var e, k, r := NextApplies(canon, y, step);
    if !Same(y.state, s') && Applied(canon, y.state, s', e, k, r) {
      assert s'.log[|y.state.log|] == e;
      if e.maker == ByDaemon(d) { assert !e.wrote; }
    }
  }

  lemma StaleFurther(canon: Canon, log: seq<Event>, y: System, step: Step, d: Daemon)
    requires DiskInv(canon, y.state) && Stale(canon, y.state, d)
    requires log <= y.state.log && Quiet(y.state.log, |log|, d)
    ensures var s' := Next(canon, y, step).state; Stale(canon, s', d) && log <= s'.log && Quiet(s'.log, |log|, d)
  {
    StaleStays(canon, y, step, d);
    QuietJoins(log, y.state.log, Next(canon, y, step).state.log, d);
  }

  /** The system after more steps. */
  function After(canon: Canon, y: System, more: seq<Step>): System {
    if more == [] then y else Next(canon, After(canon, y, more[..|more| - 1]), more[|more| - 1])
  }

  lemma {:induction false} AfterReached(canon: Canon, steps: seq<Step>, more: seq<Step>)
    ensures Reached(canon, steps + more) == After(canon, Reached(canon, steps), more)
    decreases |more|
  {
    if more == [] {
      assert steps + more == steps;
    } else {
      AfterReached(canon, steps, more[..|more| - 1]);
      assert (steps + more)[..|steps + more| - 1] == steps + more[..|more| - 1];
    }
  }

  lemma {:induction false} StaleAfter(canon: Canon, y: System, more: seq<Step>, d: Daemon)
    requires DiskInv(canon, y.state) && Stale(canon, y.state, d)
    ensures var s' := After(canon, y, more).state;
            DiskInv(canon, s') && Stale(canon, s', d) && y.state.log <= s'.log && Quiet(s'.log, |y.state.log|, d)
    decreases |more|
  {
    if more != [] {
      var before, step := After(canon, y, more[..|more| - 1]), more[|more| - 1];
      StaleAfter(canon, y, more[..|more| - 1], d);
      NextKeepsDisk(canon, before, step);
      StaleFurther(canon, y.state.log, before, step, d);
    }
  }

  /** And so for ever: until it is restarted, nothing that a daemon left behind serves reaches the disk, and
      none of its content changes is made at all. */
  lemma StaleForever(canon: Canon, steps: seq<Step>, more: seq<Step>, d: Daemon)
    requires Stale(canon, Reached(canon, steps).state, d)
    ensures var s' := Reached(canon, steps + more).state;
            Stale(canon, s', d) && Quiet(s'.log, |Reached(canon, steps).state.log|, d)
  {
    RunsKeepDisk(canon, steps);
    AfterReached(canon, steps, more);
    StaleAfter(canon, Reached(canon, steps), more, d);
  }

  // ---- How often a change is made

  function Count(log: seq<Event>, tag: nat): nat {
    if log == [] then 0 else Count(log[..|log| - 1], tag) + if log[|log| - 1].tag == tag then 1 else 0
  }

  function Waits(jobs: seq<Job>, tag: nat): nat {
    if jobs == [] then 0 else Waits(jobs[..|jobs| - 1], tag) + if jobs[|jobs| - 1].tag == tag then 1 else 0
  }

  predicate Once(y: System, tag: nat) {
    Count(y.state.log, tag) + Waits(y.state.waiting, tag) <= if tag < |y.done| then 1 else 0
  }

  /** A command that reported success has made its change once, or, misled, never; and nothing of it waits. */
  predicate Settled(y: System, tag: nat)
    requires tag < |y.done|
  {
    && (y.done[tag].misled ==> y.done[tag].swapped)
    && (y.done[tag].report.result.Ok? ==>
          Count(y.state.log, tag) == (if y.done[tag].misled then 0 else 1) && Waits(y.state.waiting, tag) == 0)
  }

  /** A change is on the vault that the command line named, the usual one when it named none and no daemon was
      asked; and a daemon makes it only for its own token. */
  predicate MadeFor(canon: Canon, client: Client, e: Event) {
    && (client.given.Some? ==> e.name == Name(canon, client.given.value))
    && (match e.maker
        case ByDaemon(d) => d.token != "" && client.token == d.token
        case ByFile => client.given.None? ==> e.name == Name(canon, client.fallback))
  }

  /** A change is the one its command chose, and the one asked for unless it was misdirected; it is on the vault
      its command line named, is kept when the command succeeded on its own reply, and is behind an error only
      when that hides it. */
  predicate LogAsked(canon: Canon, y: System, i: nat)
    requires i < |y.state.log|
  {
    var e := y.state.log[i];
    && e.tag < |y.done|
    && (var f := y.done[e.tag];
        && f.chosen == Some(e.mutation)
        && (f.asked == Some(e.mutation) <==> !f.misdirected)
        && MadeFor(canon, f.start.client, e)
        && (f.report.result.Ok? && !f.swapped ==> e.kept)
        && (f.report.result.Err? <==> Hides(f.start, e)))
  }

  predicate JobAsked(y: System, i: nat)
    requires i < |y.state.waiting|
  {
    var job := y.state.waiting[i];
    && job.tag < |y.done|
    && (var f := y.done[job.tag];
        && job.client == f.start.client && f.chosen == Some(job.mutation)
        && (f.asked == Some(job.mutation) <==> !f.misdirected)
        && f.start.fate.Waiting? && f.report.result.Err?)
  }

  ghost predicate Inv(canon: Canon, y: System) {
    && (forall tag: nat :: Once(y, tag))
    && (forall tag: nat :: tag < |y.done| ==> Settled(y, tag))
    && (forall i :: 0 <= i < |y.state.log| ==> LogAsked(canon, y, i))
    && (forall i :: 0 <= i < |y.state.waiting| ==> JobAsked(y, i))
  }

  lemma {:induction false} WaitsConcat(a: seq<Job>, b: seq<Job>, tag: nat)
    ensures Waits(a + b, tag) == Waits(a, tag) + Waits(b, tag)
  {
    if b == [] {
      assert a + b == a;
    } else {
      assert (a + b)[..|a + b| - 1] == a + b[..|b| - 1];
      WaitsConcat(a, b[..|b| - 1], tag);
    }
  }

  lemma WaitsWithout(jobs: seq<Job>, at: nat, tag: nat)
    requires at < |jobs|
    ensures Waits(jobs, tag) == Waits(Without(jobs, at), tag) + if jobs[at].tag == tag then 1 else 0
  {
    var upTo := jobs[..at + 1];
    assert jobs == upTo + jobs[at + 1..];
    assert upTo[..|upTo| - 1] == jobs[..at];
    WaitsConcat(upTo, jobs[at + 1..], tag);
    WaitsConcat(jobs[..at], jobs[at + 1..], tag);
  }

  /** How a command's run moves the system, with everything it needs to know about the run. */
  predicate Ran(canon: Canon, y: System, y': System, f: Finished) {
    var tag := |y.done|;
    && y'.done == y.done + [f] && (f.misled ==> f.swapped) && (f.asked == f.chosen <==> !f.misdirected)
    && (y'.state == y.state
        || (f.chosen.Some? && OneChange(y.state, y'.state, tag, f.chosen.value))
        || (&& f.chosen.Some? && OneWaits(y.state, y'.state, tag, f.start.client, f.chosen.value)
            && f.start.fate.Waiting? && f.report.result.Err?))
    && (f.report.result.Ok? ==>
          if f.misled then y'.state == y.state
          else f.chosen.Some? && OneChange(y.state, y'.state, tag, f.chosen.value))
    && (f.chosen.Some? && OneChange(y.state, y'.state, tag, f.chosen.value) ==>
          var e := y'.state.log[|y.state.log|];
          && MadeFor(canon, f.start.client, e)
          && (f.report.result.Ok? && !f.swapped ==> e.kept)
          && (f.report.result.Err? <==> Hides(f.start, e)))
  }

  lemma StartRan(canon: Canon, y: System, v: Case)
    ensures Ran(canon, y, Next(canon, y, Start(v)), Ended(canon, y, v))
  {
    var s, tag := y.state, |y.done|;
    CommandOnce(canon, s, tag, v);
    ActsAsAskedIff(canon, s, tag, v);
    RouteTaken(canon, s, tag, v);
    if Sends(canon, s, tag, v) {
      WhatSendingMakes(canon, s, tag, v, Found(canon, s, tag, v).value);
    } else {
      WhatTheFileMakes(canon, s, tag, v.client, v.command, v.direct);
    }
  }

  lemma RanKeepsOnce(canon: Canon, y: System, y': System, f: Finished, tag: nat)
    requires Ran(canon, y, y', f) && Once(y, tag) && (tag < |y.done| ==> Settled(y, tag))
    ensures Once(y', tag) && (tag < |y'.done| ==> Settled(y', tag))
  {
    if |y'.state.log| > |y.state.log| {
      assert y'.state.log[..|y'.state.log| - 1] == y.state.log;
    }
    if |y'.state.waiting| > |y.state.waiting| {
      assert y'.state.waiting[..|y'.state.waiting| - 1] == y.state.waiting;
    }
  }

  lemma RanKeepsAsked(canon: Canon, y: System, y': System, f: Finished)
    requires Ran(canon, y, y', f) && Inv(canon, y)
    ensures forall i :: 0 <= i < |y'.state.log| ==> LogAsked(canon, y', i)
    ensures forall i :: 0 <= i < |y'.state.waiting| ==> JobAsked(y', i)
  {
    forall i | 0 <= i < |y'.state.log| ensures LogAsked(canon, y', i) {
      if i < |y.state.log| {
        assert LogAsked(canon, y, i) && y'.state.log[i] == y'.state.log[..|y.state.log|][i];
      }
    }
    forall i | 0 <= i < |y'.state.waiting| ensures JobAsked(y', i) {
      if i < |y.state.waiting| {
        assert JobAsked(y, i) && y'.state.waiting[i] == y'.state.waiting[..|y.state.waiting|][i];
      }
    }
  }

  /** How a late service moves the system. */
  predicate Moved(canon: Canon, y: System, y': System, at: nat)
    requires at < |y.state.waiting|
  {
    var job := y.state.waiting[at];
    && y'.done == y.done && y'.state.waiting == Without(y.state.waiting, at)
    && (y'.state.log == y.state.log
        || (&& |y'.state.log| == |y.state.log| + 1 && y'.state.log[..|y.state.log|] == y.state.log
            && y'.state.log[|y.state.log|].tag == job.tag && y'.state.log[|y.state.log|].mutation == job.mutation
            && y'.state.log[|y.state.log|].maker.ByDaemon?
            && MadeFor(canon, job.client, y'.state.log[|y.state.log|])))
  }

  lemma LateMoved(canon: Canon, y: System, step: Step)
    requires (step.Late? || step.Drop?) && step.at < |y.state.waiting|
    ensures Moved(canon, y, Next(canon, y, step), step.at)
  {
    if step.Late? {
      var job := y.state.waiting[step.at];
      var taken := y.state.(waiting := Without(y.state.waiting, step.at));
      ServedInScope(canon, taken, job.tag, step.daemon, job.client, job.mutation, step.work);
    }
  }

  lemma ServedInScope(canon: Canon, s: State, tag: nat, d: Daemon, client: Client, m: Mutation, w: Work)
    ensures var s' := Serve(canon, s, tag, d, Wrapped(client, Mutate(m)), w).state;
            s' == s
            || (&& |s'.log| == |s.log| + 1 && s'.log[..|s.log|] == s.log && s'.waiting == s.waiting
                && s'.log[|s.log|].tag == tag && s'.log[|s.log|].mutation == m && s'.log[|s.log|].maker.ByDaemon?
                && MadeFor(canon, client, s'.log[|s.log|]))
  {}

  lemma MovedKeepsOnce(canon: Canon, y: System, y': System, at: nat, tag: nat)
    requires at < |y.state.waiting| && Moved(canon, y, y', at)
    requires Once(y, tag) && (tag < |y.done| ==> Settled(y, tag))
    ensures Once(y', tag) && (tag < |y'.done| ==> Settled(y', tag))
  {
    WaitsWithout(y.state.waiting, at, tag);
    if |y'.state.log| > |y.state.log| { assert y'.state.log[..|y'.state.log| - 1] == y.state.log; }
  }

  lemma MovedKeepsAsked(canon: Canon, y: System, y': System, at: nat)
    requires at < |y.state.waiting| && Moved(canon, y, y', at) && Inv(canon, y)
    ensures forall i :: 0 <= i < |y'.state.log| ==> LogAsked(canon, y', i)
    ensures forall i :: 0 <= i < |y'.state.waiting| ==> JobAsked(y', i)
  {
    assert JobAsked(y, at);
    forall i | 0 <= i < |y'.state.log| ensures LogAsked(canon, y', i) {
      if i < |y.state.log| {
        assert LogAsked(canon, y, i);
        assert |y'.state.log| > |y.state.log| ==> y'.state.log[i] == y'.state.log[..|y.state.log|][i];
      }
    }
    forall i | 0 <= i < |y'.state.waiting| ensures JobAsked(y', i) {
      assert JobAsked(y, if i < at then i else i + 1);
    }
  }

  lemma StepKeepsInv(canon: Canon, y: System, step: Step)
    requires Inv(canon, y)
    ensures Inv(canon, Next(canon, y, step))
  {
    var y' := Next(canon, y, step);
    if step.Start? {
      StartRan(canon, y, step.what);
      forall tag: nat ensures Once(y', tag) && (tag < |y'.done| ==> Settled(y', tag)) {
        RanKeepsOnce(canon, y, y', Ended(canon, y, step.what), tag);
      }
      RanKeepsAsked(canon, y, y', Ended(canon, y, step.what));
    } else if !step.Unlock? && step.at < |y.state.waiting| {
      LateMoved(canon, y, step);
      forall tag: nat ensures Once(y', tag) && (tag < |y'.done| ==> Settled(y', tag)) {
        MovedKeepsOnce(canon, y, y', step.at, tag);
      }
      MovedKeepsAsked(canon, y, y', step.at);
    } else {
      forall tag: nat ensures Once(y', tag) && (tag < |y'.done| ==> Settled(y', tag)) {
        assert Once(y, tag) && (tag < |y.done| ==> Settled(y, tag));
      }
      forall i | 0 <= i < |y'.state.log| ensures LogAsked(canon, y', i) { assert LogAsked(canon, y, i); }
      forall i | 0 <= i < |y'.state.waiting| ensures JobAsked(y', i) { assert JobAsked(y, i); }
    }
  }

  lemma {:induction false} RunsKeepInv(canon: Canon, steps: seq<Step>)
    ensures Inv(canon, Reached(canon, steps))
  {
    if steps != [] {
      RunsKeepInv(canon, steps[..|steps| - 1]);
      StepKeepsInv(canon, Reached(canon, steps[..|steps| - 1]), steps[|steps| - 1]);
    }
  }

  /** How often a command's change was made in a run, by daemon and file together. */
  function Times(canon: Canon, steps: seq<Step>, tag: nat): nat {
    Count(Reached(canon, steps).state.log, tag)
  }

  /** Over every run, a command's change is made at most once, by daemon and file together and counting
      everything served late. */
  lemma AtMostOnce(canon: Canon, steps: seq<Step>, tag: nat)
    ensures Times(canon, steps, tag) <= 1
  {
    RunsKeepInv(canon, steps);
    assert Once(Reached(canon, steps), tag);
  }

  /** How often exactly the change asked for was made for a command. */
  function CountAs(log: seq<Event>, tag: nat, asked: Option<Mutation>): nat {
    if log == [] then 0 else
    var e := log[|log| - 1];
    CountAs(log[..|log| - 1], tag, asked) + if e.tag == tag && Some(e.mutation) == asked then 1 else 0
  }

  lemma {:induction false} CountedAs(log: seq<Event>, tag: nat, asked: Option<Mutation>, all: bool)
    requires forall i :: 0 <= i < |log| && log[i].tag == tag ==> (Some(log[i].mutation) == asked) == all
    ensures CountAs(log, tag, asked) == if all then Count(log, tag) else 0
  {
    if log != [] { CountedAs(log[..|log| - 1], tag, asked, all); }
  }

  /** A command that reported success has made the change it chose exactly once, then and ever after, unless it
      was misled, and then never. It has made the change it was asked for, on the entry its query was resolved
      to, exactly once if and only if it was neither misled nor misdirected, and otherwise never. */
  lemma SuccessIsOnceIff(canon: Canon, steps: seq<Step>, tag: nat)
    requires tag < |Reached(canon, steps).done| && Reached(canon, steps).done[tag].report.result.Ok?
    ensures var f := Reached(canon, steps).done[tag];
            && Times(canon, steps, tag) == (if f.misled then 0 else 1)
            && CountAs(Reached(canon, steps).state.log, tag, f.asked) == (if f.misled || f.misdirected then 0 else 1)
  {
    RunsKeepInv(canon, steps);
    var y := Reached(canon, steps);
    assert Settled(y, tag);
    forall i | 0 <= i < |y.state.log| && y.state.log[i].tag == tag
      ensures (Some(y.state.log[i].mutation) == y.done[tag].asked) == !y.done[tag].misdirected
    {
      assert LogAsked(canon, y, i);
    }
    CountedAs(y.state.log, tag, y.done[tag].asked, !y.done[tag].misdirected);
  }

  /** Every change made is the one its command chose, and asked for unless it was misdirected, on the vault its
      command line named: late service by any daemon included. */
  lemma ChangesWereAskedFor(canon: Canon, steps: seq<Step>, i: nat)
    requires i < |Reached(canon, steps).state.log|
    ensures var y := Reached(canon, steps);
            var e := y.state.log[i];
            && e.tag < |y.done|
            && (var f := y.done[e.tag];
                && f.chosen == Some(e.mutation) && (f.asked == Some(e.mutation) <==> !f.misdirected)
                && (f.start.client.given.Some? ==> e.name == Name(canon, f.start.client.given.value))
                && (f.start.client.given.None? && e.maker.ByFile? ==> e.name == Name(canon, f.start.client.fallback)))
  {
    RunsKeepInv(canon, steps);
    assert LogAsked(canon, Reached(canon, steps), i);
  }

  /** Over every run, late service included, a daemon has changed something only for a command that held the
      token of that very daemon, which is not empty. */
  lemma DaemonChangesNeedItsToken(canon: Canon, steps: seq<Step>, i: nat)
    requires i < |Reached(canon, steps).state.log| && Reached(canon, steps).state.log[i].maker.ByDaemon?
    ensures var y := Reached(canon, steps);
            var e := y.state.log[i];
            e.tag < |y.done| && y.done[e.tag].start.client.token == e.maker.daemon.token != ""
  {
    RunsKeepInv(canon, steps);
    assert LogAsked(canon, Reached(canon, steps), i);
  }

  /** Over every run, late service included, a command reported an error although its change was made exactly
      when its request, its reply or a save behind it went wrong in one of the ways that hide it. */
  lemma ErrorHidesChangeIff(canon: Canon, steps: seq<Step>, i: nat)
    requires i < |Reached(canon, steps).state.log|
    ensures var y := Reached(canon, steps);
            var e := y.state.log[i];
            && e.tag < |y.done|
            && (y.done[e.tag].report.result.Err? <==> Hides(y.done[e.tag].start, e))
  {
    RunsKeepInv(canon, steps);
    assert LogAsked(canon, Reached(canon, steps), i);
  }

  lemma {:induction false} Counted(log: seq<Event>, tag: nat) returns (i: nat)
    requires Count(log, tag) > 0
    ensures i < |log| && log[i].tag == tag
  {
    if log[|log| - 1].tag == tag {
      i := |log| - 1;
    } else {
      i := Counted(log[..|log| - 1], tag);
    }
  }

  /** Success lasts: the change of a command that reported success on its own reply is in the log, kept, and,
      unless it had nothing to change, in its file, then and after any further steps. */
  lemma SuccessIsDurable(canon: Canon, steps: seq<Step>, more: seq<Step>, tag: nat) returns (i: nat)
    requires tag < |Reached(canon, steps).done|
    requires var f := Reached(canon, steps).done[tag]; f.report.result.Ok? && !f.swapped
    ensures var s, s' := Reached(canon, steps).state, Reached(canon, steps + more).state;
            && i < |s.log| <= |s'.log| && s.log[i].tag == tag && s.log[i].kept && s'.log[i] == s.log[i]
            && (s.log[i].content ==> i in FileAt(s', s.log[i].name).holds)
  {
    SuccessIsOnceIff(canon, steps, tag);
    RunsKeepInv(canon, steps);
    assert Settled(Reached(canon, steps), tag);
    i := Counted(Reached(canon, steps).state.log, tag);
    assert LogAsked(canon, Reached(canon, steps), i);
    LogGrows(canon, steps, more);
    if Reached(canon, steps).state.log[i].content { KeptChangesStay(canon, steps, more, i); }
  }
}
