/** The commands that change a vault: first through the session daemon, and straight on the file when no
    daemon answers the door. Connections fail, replies get lost or arrive late, and files change under a
    daemon. */
module IpcMutation {
  import opened Results
  import opened VaultSession

  datatype Mutation = Add(entry: string) | Update(id: nat, changes: string) | Delete(id: nat, permanent: bool)

  datatype Request =
    | ForVault(path: string, request: Request)
    | Ping
    | GetEntry(query: string)
    | Mutate(mutation: Mutation)
    | Lock

  datatype Response =
    | Pong
    | Entry(id: nat)
    | AddSuccess(id: nat)
    | UpdateSuccess
    | DeleteSuccess
    | LockSuccess
    | OtherResponse
    | Error(message: string)

  datatype Envelope = Envelope(token: string, request: Request)

  /** A command line: its session token, the vault path it gives, and the path used when it gives none.
      Paths are absolute. */
  datatype Client = Client(token: string, given: Option<string>, fallback: string)

  /** A running daemon; the token is drawn anew for each. */
  datatype Daemon = Daemon(token: string, path: string)

  /** What becomes of a reply: it arrives, it is lost, late, cut or unreadable, or another one arrives. */
  datatype Reply = Intact | Gone | Swapped(response: Response)

  /** What becomes of a request. Connecting fails; or the request never reaches the daemon whole, or is
      over its size limit; or the daemon serves it; or it is still waiting when the client gives up. */
  datatype Fate = Refused | Undelivered | Served(daemon: Daemon, work: Work, reply: Reply) | Waiting

  /** How opening the vault file, resolving the entry, and changing it fare on the direct path. */
  datatype Direct = Direct(open: Result<()>, resolved: Result<nat>, work: Work)

  datatype Maker = ByDaemon(daemon: Daemon) | ByFile

  /** One change of one vault file, marked with the command that asked for it: whether any content differs,
      whether the manager kept it, and whether the file was replaced on the way. Its place in the log is its
      number. */
  datatype Event = Event(tag: nat, name: string, mutation: Mutation, maker: Maker,
                         content: bool, kept: bool, wrote: bool)

  /** A mutation on its way to the daemon. */
  datatype Job = Job(tag: nat, client: Client, mutation: Mutation)

  /** All changes so far, the mutations on their way, the vault files, and the sessions of the daemons. */
  datatype State = State(log: seq<Event>, waiting: seq<Job>, files: map<string, File>, sessions: map<Daemon, Session>)

  /** Canonical paths; none when there is no such file. */
  type Canon = string -> Option<string>

  const UNCONFIRMED :=
    "Session response was not confirmed. The operation may have completed; check the vault before retrying."

  // ---- Vaults

  /** What a path names. */
  function Name(canon: Canon, path: string): string {
    match canon(path) case Some(name) => name case None => path
  }

  function FileAt(s: State, name: string): File {
    if name in s.files then s.files[name] else File(0, {})
  }

  /** A daemon's session with its file; a daemon not seen before has just unlocked. */
  function DaemonVault(canon: Canon, s: State, d: Daemon): Opened {
    var file := FileAt(s, Name(canon, d.path));
    Opened(file, if d in s.sessions then s.sessions[d] else Unlocked(file))
  }

  function FreshVault(canon: Canon, s: State, path: string): Opened {
    var file := FileAt(s, Name(canon, path));
    Opened(file, Unlocked(file))
  }

  /** Adding an entry and moving one to the trash always change content. An edit may find nothing to change, and
      then does not save; a permanent deletion may find nothing in the trash, and saves all the same. */
  function WorkOn(m: Mutation, w: Work): Work {
    match m
    case Add(_) => w.(saves := true, content := true)
    case Update(_, _) => w.(saves := w.content)
    case Delete(_, permanent) => w.(saves := true, content := !permanent || w.content)
  }

  function DaemonWork(canon: Canon, s: State, d: Daemon, m: Mutation, w: Work): Managed {
    Manage(DaemonVault(canon, s, d), |s.log|, WorkOn(m, w))
  }

  function FileWork(canon: Canon, s: State, path: string, m: Mutation, w: Work): Managed {
    Manage(FreshVault(canon, s, path), |s.log|, WorkOn(m, w))
  }

  /** Every change kept, and every file replaced, is an event. */
  function Recorded(s: State, tag: nat, name: string, m: Mutation, maker: Maker, w: Work, r: Managed): State {
    if r.result.Err? && !r.wrote then s else
    State(s.log + [Event(tag, name, m, maker, WorkOn(m, w).content, r.result.Ok?, r.wrote)], s.waiting,
          s.files[name := r.vault.file],
          match maker case ByDaemon(d) => s.sessions[d := r.vault.session] case ByFile => s.sessions)
  }

  // ---- The daemon

  function Done(m: Mutation, id: nat): Response {
    match m case Add(_) => AddSuccess(id) case Update(_, _) => UpdateSuccess case Delete(_, _) => DeleteSuccess
  }

  datatype Service = Service(state: State, response: Response)

  function ServeMutation(canon: Canon, s: State, tag: nat, d: Daemon, m: Mutation, w: Work): Service {
    var r := DaemonWork(canon, s, d, m, w);
    Service(Recorded(s, tag, Name(canon, d.path), m, ByDaemon(d), w, r),
            match r.result case Ok(id) => Done(m, id) case Err(e) => Error(e))
  }

  function Handled(canon: Canon, s: State, tag: nat, d: Daemon, request: Request, w: Work): Service {
    match request
    case ForVault(_, _) => Service(s, Error("Nested vault requests are not supported"))
    case Ping => Service(s, Pong)
    case Lock => Service(s, LockSuccess)
    case GetEntry(_) => Service(s, match w.outcome case Ok(id) => Entry(id) case Err(e) => Error(e))
    case Mutate(m) => ServeMutation(canon, s, tag, d, m, w)
  }

  predicate SameVault(canon: Canon, requested: string, active: string) {
    canon(requested).Some? && canon(requested) == canon(active)
  }

  function Scoped(canon: Canon, s: State, tag: nat, d: Daemon, request: Request, w: Work): Service {
    match request
    case ForVault(path, inner) =>
      if SameVault(canon, path, d.path) then Handled(canon, s, tag, d, inner, w)
      else Service(s, Error("The active IPC session belongs to a different vault"))
    case _ => Handled(canon, s, tag, d, request, w)
  }

  predicate Authorized(d: Daemon, envelope: Envelope) {
    d.token != "" && envelope.token != "" && envelope.token == d.token
  }

  function Serve(canon: Canon, s: State, tag: nat, d: Daemon, envelope: Envelope, w: Work): Service {
    if Authorized(d, envelope) then Scoped(canon, s, tag, d, envelope.request, w)
    else Service(s, Error("Unauthorized: Invalid YNTRA_SESSION token"))
  }

  // ---- The client's side of a request

  function Wrapped(client: Client, request: Request): Envelope {
    Envelope(client.token,
             match client.given
             case Some(path) => if request.Ping? || request.Lock? then request else ForVault(path, request)
             case None => request)
  }

  function PathOf(client: Client): string {
    match client.given case Some(path) => path case None => client.fallback
  }

  datatype Exchange = Exchange(state: State, response: Option<Response>)

  /** Nothing means that no connection was made and no request was sent. A lookup still waiting changes
      nothing when it is served, so only mutations are kept waiting. */
  function Tried(canon: Canon, s: State, tag: nat, client: Client, request: Request, fate: Fate): Exchange {
    match fate
    case Refused => Exchange(s, None)
    case Undelivered => Exchange(s, Some(Error(UNCONFIRMED)))
    case Waiting =>
      Exchange(if request.Mutate? then s.(waiting := s.waiting + [Job(tag, client, request.mutation)]) else s,
               Some(Error(UNCONFIRMED)))
    case Served(d, w, reply) =>
      var service := Serve(canon, s, tag, d, Wrapped(client, request), w);
      Exchange(service.state,
               Some(match reply
                    case Intact => service.response
                    case Gone => Error(UNCONFIRMED)
                    case Swapped(other) => other))
  }

  predicate Expected(m: Mutation, response: Response) {
    || (m.Add? && response.AddSuccess?)
    || (m.Update? && response.UpdateSuccess?)
    || (m.Delete? && response.DeleteSuccess?)
  }

  function Validated(m: Mutation, response: Option<Response>): Result<Option<Response>> {
    match response
    case None => Ok(None)
    case Some(Error(message)) => Err(message)
    case Some(r) =>
      if Expected(m, r) then Ok(Some(r)) else Err("Unexpected session response; operation was not retried")
  }

  // ---- The commands

  datatype Command = AddEntry(entry: string) | EditEntry(query: string, changes: string)
                   | DeleteEntry(query: string, permanent: bool)

  /** A command's result, and whether it printed that the change was made. */
  datatype Report = Report(result: Result<()>, said: bool)

  datatype Run = Run(state: State, report: Report)

  /** The change a command asks for, on the entry it was resolved to. */
  function Wanted(c: Command, id: nat): Mutation {
    match c
    case AddEntry(entry) => Add(entry)
    case EditEntry(_, changes) => Update(id, changes)
    case DeleteEntry(_, permanent) => Delete(id, permanent)
  }

  /** The change that the direct path makes. */
  function OnFile(c: Command, d: Direct): Result<Mutation> {
    if d.open.Err? then Err(d.open.message)
    else if c.AddEntry? then Ok(Wanted(c, 0))
    else match d.resolved case Ok(id) => Ok(Wanted(c, id)) case Err(message) => Err(message)
  }

  /** The direct path. Deleting reports before its last save; adding and editing report after. */
  function Directly(canon: Canon, s: State, tag: nat, client: Client, c: Command, d: Direct): Run {
    match OnFile(c, d)
    case Err(message) => Run(s, Report(Err(message), false))
    case Ok(m) =>
      var r := FileWork(canon, s, PathOf(client), m, d.work);
      var s' := Recorded(s, tag, Name(canon, PathOf(client)), m, ByFile, d.work, r);
      if r.result.Err? then Run(s', Report(Err(r.result.message), false))
      else if r.again then Run(s', Report(Ok(()), true))
      else Run(s', Report(Err(UNSAVED), c.DeleteEntry?))
  }

  /** A command with everything that happens to it. */
  datatype Case = Case(client: Client, command: Command, lookup: Fate, fate: Fate, direct: Direct)

  /** The mutation through the daemon, and the direct path when no connection was made. */
  function Mutated(canon: Canon, s: State, tag: nat, v: Case, id: nat): Run {
    var m := Wanted(v.command, id);
    var x := Tried(canon, s, tag, v.client, Mutate(m), v.fate);
    match Validated(m, x.response)
    case Err(message) => Run(x.state, Report(Err(message), false))
    case Ok(Some(_)) => Run(x.state, Report(Ok(()), true))
    case Ok(None) => Directly(canon, x.state, tag, v.client, v.command, v.direct)
  }

  /** Editing and deleting look the entry up first and go to the file when the lookup gives no entry. */
  function Executed(canon: Canon, s: State, tag: nat, v: Case): Run {
    if v.command.AddEntry? then Mutated(canon, s, tag, v, 0) else
    var x := Tried(canon, s, tag, v.client, GetEntry(v.command.query), v.lookup);
    match x.response
    case Some(Entry(id)) => Mutated(canon, x.state, tag, v, id)
    case _ => Directly(canon, x.state, tag, v.client, v.command, v.direct)
  }

  // ---- The same as statements on shared state

  class Machine {
    const canon: Canon
    var log: seq<Event>
    var waiting: seq<Job>
    var files: map<string, File>
    var sessions: map<Daemon, Session>

    constructor (canon: Canon)
      ensures Now() == State([], [], map[], map[]) && this.canon == canon
    {
      this.canon := canon;
      log, waiting, files, sessions := [], [], map[], map[];
    }

    function Now(): State
      reads this
    {
      State(log, waiting, files, sessions)
    }

    /** A manager makes a change and, when that is kept, saves once more. */
    method ManageChange(k: Opened, m: Mutation, w: Work) returns (r: Managed)
      ensures r == Manage(k, |log|, WorkOn(m, w))
    {
      var work := WorkOn(m, w);
      var manager := new Manager(k.file, k.session);
      var result := manager.Change(|log|, work);
      var wrote := Changed(k, |log|, work).wrote;
      if result.Err? {
        return Managed(manager.View(), result, wrote, false);
      }
      wrote := wrote || Replaces(manager.View(), work.second);
      var saved := manager.SaveVault(work.second);
      r := Managed(manager.View(), result, wrote, saved.Ok?);
    }

    method Record(tag: nat, name: string, m: Mutation, maker: Maker, w: Work, r: Managed)
      modifies this
      ensures Now() == Recorded(old(Now()), tag, name, m, maker, w, r)
    {
      if r.result.Err? && !r.wrote { return; }
      log := log + [Event(tag, name, m, maker, WorkOn(m, w).content, r.result.Ok?, r.wrote)];
      files := files[name := r.vault.file];
      match maker {
        case ByDaemon(d) => sessions := sessions[d := r.vault.session];
        case ByFile =>
      }
    }

    method ServeChange(tag: nat, d: Daemon, m: Mutation, w: Work) returns (response: Response)
      modifies this
      ensures var service := ServeMutation(canon, old(Now()), tag, d, m, w);
              response == service.response && Now() == service.state
    {
      var r := ManageChange(DaemonVault(canon, Now(), d), m, w);
      Record(tag, Name(canon, d.path), m, ByDaemon(d), w, r);
      response := match r.result case Ok(id) => Done(m, id) case Err(e) => Error(e);
    }

    /** One connection as the daemon serves it. */
    method AcceptRequest(tag: nat, d: Daemon, envelope: Envelope, w: Work) returns (response: Response)
      modifies this
      ensures var service := Serve(canon, old(Now()), tag, d, envelope, w);
              response == service.response && Now() == service.state
    {
      var isAuthorized := d.token != "" && envelope.token != "" && envelope.token == d.token;
      if !isAuthorized {
        return Error("Unauthorized: Invalid YNTRA_SESSION token");
      }
      var request := envelope.request;
      if request.ForVault? {
        var requested, active := canon(request.path), canon(d.path);
        if !(requested.Some? && active.Some? && requested == active) {
          return Error("The active IPC session belongs to a different vault");
        }
        request := request.request;
      }
      match request {
        case ForVault(_, _) => response := Error("Nested vault requests are not supported");
        case Ping => response := Pong;
        case Lock => response := LockSuccess;
        case GetEntry(_) => response := match w.outcome case Ok(id) => Entry(id) case Err(e) => Error(e);
        case Mutate(m) => response := ServeChange(tag, d, m, w);
      }
    }

    method TryIpcRequest(tag: nat, client: Client, request: Request, fate: Fate) returns (response: Option<Response>)
      modifies this
      ensures var x := Tried(canon, old(Now()), tag, client, request, fate);
              response == x.response && Now() == x.state
    {
      match fate {
        case Refused => response := None;
        case Undelivered => response := Some(Error(UNCONFIRMED));
        case Waiting =>
          if request.Mutate? { waiting := waiting + [Job(tag, client, request.mutation)]; }
          response := Some(Error(UNCONFIRMED));
        case Served(d, w, reply) =>
          var answered := AcceptRequest(tag, d, Wrapped(client, request), w);
          match reply {
            case Intact => response := Some(answered);
            case Gone => response := Some(Error(UNCONFIRMED));
            case Swapped(other) => response := Some(other);
          }
      }
    }

    method TryIpcMutation(tag: nat, client: Client, m: Mutation, fate: Fate) returns (result: Result<Option<Response>>)
      modifies this
      ensures var x := Tried(canon, old(Now()), tag, client, Mutate(m), fate);
              result == Validated(m, x.response) && Now() == x.state
    {
      var response := TryIpcRequest(tag, client, Mutate(m), fate);
      result := Validated(m, response);
    }

    method LookUp(tag: nat, client: Client, query: string, fate: Fate) returns (existing: Option<nat>)
      modifies this
      ensures Now() == old(Now())
      ensures existing == match Tried(canon, Now(), tag, client, GetEntry(query), fate).response
                          case Some(Entry(id)) => Some(id)
                          case _ => None
    {
      var response := TryIpcRequest(tag, client, GetEntry(query), fate);
      LookupsChangeNothing(canon, old(Now()), tag, client, query, fate);
      existing := match response case Some(Entry(id)) => Some(id) case _ => None;
    }

    /** Opens the file, makes the change and saves; deleting prints its success before the last save. */
    method OpenAndChange(tag: nat, client: Client, c: Command, d: Direct) returns (report: Report)
      modifies this
      ensures var run := Directly(canon, old(Now()), tag, client, c, d);
              report == run.report && Now() == run.state
    {
      var path := PathOf(client);
      if d.open.Err? {
        return Report(Err(d.open.message), false);
      }
      var id := 0;
      if !c.AddEntry? {
        if d.resolved.Err? { return Report(Err(d.resolved.message), false); }
        id := d.resolved.value;
      }
      var m := Wanted(c, id);
      var r := ManageChange(FreshVault(canon, Now(), path), m, d.work);
      Record(tag, Name(canon, path), m, ByFile, d.work, r);
      if r.result.Err? {
        return Report(Err(r.result.message), false);
      }
      var said := c.DeleteEntry?;
      if !r.again {
        return Report(Err(UNSAVED), said);
      }
      report := Report(Ok(()), true);
    }

    method HandleAdd(tag: nat, client: Client, entry: string, fate: Fate, d: Direct) returns (report: Report)
      modifies this
      ensures var run := Executed(canon, old(Now()), tag, Case(client, AddEntry(entry), Refused, fate, d));
              report == run.report && Now() == run.state
    {
      var mutation := TryIpcMutation(tag, client, Add(entry), fate);
      match mutation {
        case Err(e) => return Report(Err(e), false);
        case Ok(Some(_)) => return Report(Ok(()), true);
        case Ok(None) =>
      }
      report := OpenAndChange(tag, client, AddEntry(entry), d);
    }

    method HandleEdit(tag: nat, client: Client, query: string, changes: string,
                      lookup: Fate, fate: Fate, d: Direct) returns (report: Report)
      modifies this
      ensures var run := Executed(canon, old(Now()), tag, Case(client, EditEntry(query, changes), lookup, fate, d));
              report == run.report && Now() == run.state
    {
      LookupsChangeNothing(canon, Now(), tag, client, query, lookup);
      var existing := LookUp(tag, client, query, lookup);
      if existing.Some? {
        var mutation := TryIpcMutation(tag, client, Update(existing.value, changes), fate);
        match mutation {
          case Err(e) => return Report(Err(e), false);
          case Ok(Some(_)) => return Report(Ok(()), true);
          case Ok(None) =>
        }
      }
      report := OpenAndChange(tag, client, EditEntry(query, changes), d);
    }

    method HandleDelete(tag: nat, client: Client, query: string, permanent: bool,
                        lookup: Fate, fate: Fate, d: Direct) returns (report: Report)
      modifies this
      ensures var v := Case(client, DeleteEntry(query, permanent), lookup, fate, d);
              var run := Executed(canon, old(Now()), tag, v);
              report == run.report && Now() == run.state
    {
      LookupsChangeNothing(canon, Now(), tag, client, query, lookup);
      var existing := LookUp(tag, client, query, lookup);
      if existing.Some? {
        var mutation := TryIpcMutation(tag, client, Delete(existing.value, permanent), fate);
        match mutation {
          case Err(e) => return Report(Err(e), false);
          case Ok(Some(_)) => return Report(Ok(()), true);
          case Ok(None) =>
        }
      }
      report := OpenAndChange(tag, client, DeleteEntry(query, permanent), d);
    }
  }

  // ---- One command

  lemma LookupsChangeNothing(canon: Canon, s: State, tag: nat, client: Client, query: string, fate: Fate)
    ensures Tried(canon, s, tag, client, GetEntry(query), fate).state == s
  {}

  predicate OneChange(s: State, s': State, tag: nat, m: Mutation) {
    && |s'.log| == |s.log| + 1 && s'.log[..|s.log|] == s.log && s'.waiting == s.waiting
    && s'.log[|s.log|].tag == tag && s'.log[|s.log|].mutation == m
  }

  predicate OneWaits(s: State, s': State, tag: nat, client: Client, m: Mutation) {
    && s'.log == s.log && s'.files == s.files && s'.sessions == s.sessions
    && s'.waiting == s.waiting + [Job(tag, client, m)]
  }

  /** The change a run made, if any: the last of the log when it grew. */
  function Made(s: State, s': State): Option<Event> {
    if |s'.log| == |s.log| + 1 then Some(s'.log[|s.log|]) else None
  }

  /** The entry that the lookup gave the command; a new one needs no lookup. */
  function Found(canon: Canon, s: State, tag: nat, v: Case): Option<nat> {
    if v.command.AddEntry? then Some(0) else
    match Tried(canon, s, tag, v.client, GetEntry(v.command.query), v.lookup).response
    case Some(Entry(id)) => Some(id)
    case _ => None
  }

  /** The entry that the daemon asked in the lookup resolved the query to. */
  function Answered(canon: Canon, s: State, tag: nat, v: Case): Option<nat> {
    if v.command.AddEntry? then Some(0)
    else if !v.lookup.Served? then None
    else
      match Serve(canon, s, tag, v.lookup.daemon, Wrapped(v.client, GetEntry(v.command.query)), v.lookup.work).response
      case Entry(id) => Some(id)
      case _ => None
  }

  /** Whether the mutation is sent to a daemon; if not, the file is used. */
  predicate Sends(canon: Canon, s: State, tag: nat, v: Case) {
    Found(canon, s, tag, v).Some? && !v.fate.Refused?
  }

  /** The change that the command sends or makes. */
  function Chosen(canon: Canon, s: State, tag: nat, v: Case): Option<Mutation> {
    if Sends(canon, s, tag, v) then Some(Wanted(v.command, Found(canon, s, tag, v).value))
    else match OnFile(v.command, v.direct) case Ok(m) => Some(m) case Err(_) => None
  }

  /** The change asked for: on the entry that the daemon, or the file, resolved the query to. */
  function AskedFor(canon: Canon, s: State, tag: nat, v: Case): Option<Mutation> {
    if Sends(canon, s, tag, v) then
      match Answered(canon, s, tag, v) case Some(id) => Some(Wanted(v.command, id)) case None => None
    else Chosen(canon, s, tag, v)
  }

  function Sent(canon: Canon, s: State, tag: nat, v: Case, id: nat): Run {
    var m := Wanted(v.command, id);
    var x := Tried(canon, s, tag, v.client, Mutate(m), v.fate);
    match Validated(m, x.response)
    case Err(message) => Run(x.state, Report(Err(message), false))
    case Ok(_) => Run(x.state, Report(Ok(()), true))
  }

  lemma SendingFallsBackIffRefused(canon: Canon, s: State, tag: nat, v: Case, id: nat)
    ensures Mutated(canon, s, tag, v, id)
         == if v.fate.Refused? then Directly(canon, s, tag, v.client, v.command, v.direct)
            else Sent(canon, s, tag, v, id)
  {}

  /** The file is used exactly when the lookup found nothing or the mutation was never sent. */
  lemma RouteTaken(canon: Canon, s: State, tag: nat, v: Case)
    ensures Executed(canon, s, tag, v)
         == if Sends(canon, s, tag, v) then Sent(canon, s, tag, v, Found(canon, s, tag, v).value)
            else Directly(canon, s, tag, v.client, v.command, v.direct)
  {
    if !v.command.AddEntry? { LookupsChangeNothing(canon, s, tag, v.client, v.command.query, v.lookup); }
    var id := Found(canon, s, tag, v);
    if id.Some? { SendingFallsBackIffRefused(canon, s, tag, v, id.value); }
  }

  // ---- Which entry it acts on

  /** The lookup's answer was replaced by an entry that the daemon did not resolve the query to. */
  predicate Misdirected(canon: Canon, s: State, tag: nat, v: Case) {
    && !v.command.AddEntry? && !v.fate.Refused?
    && v.lookup.Served? && v.lookup.reply.Swapped? && v.lookup.reply.response.Entry?
    && Answered(canon, s, tag, v) != Some(v.lookup.reply.response.id)
  }

  /** What a command acts on is what it was asked for, exactly when it is not misdirected. */
  lemma ActsAsAskedIff(canon: Canon, s: State, tag: nat, v: Case)
    ensures Chosen(canon, s, tag, v) == AskedFor(canon, s, tag, v) <==> !Misdirected(canon, s, tag, v)
  {
    if !v.command.AddEntry? {
      LookupGives(canon, s, tag, v);
    }
  }

  lemma LookupGives(canon: Canon, s: State, tag: nat, v: Case)
    requires !v.command.AddEntry?
    ensures Found(canon, s, tag, v)
         == if !v.lookup.Served? then None
            else match v.lookup.reply
                 case Intact => Answered(canon, s, tag, v)
                 case Gone => None
                 case Swapped(other) => if other.Entry? then Some(other.id) else None
  {}

  // ---- Whom the daemon serves

  /** Whatever is sent without the token of the daemon changes nothing and is answered by an error; and so is
      everything sent to a daemon that has none. */
  lemma OnlyTheTokenIsServed(canon: Canon, s: State, tag: nat, d: Daemon, e: Envelope, w: Work)
    requires d.token == "" || e.token != d.token
    ensures Serve(canon, s, tag, d, e, w).state == s && Serve(canon, s, tag, d, e, w).response.Error?
  {}

  /** With the token a daemon is reached, and only with it. */
  lemma AnswersPingIff(canon: Canon, s: State, tag: nat, d: Daemon, e: Envelope, w: Work)
    requires e.request == Ping
    ensures Serve(canon, s, tag, d, e, w).response == Pong <==> d.token != "" && e.token == d.token
  {}

  /** A request for a vault is served like the bare request exactly by a daemon of that very file, and otherwise
      changes nothing and is answered by an error. */
  lemma OnlyItsVaultIsServed(canon: Canon, s: State, tag: nat, d: Daemon, path: string, request: Request, w: Work)
    requires d.token != "" && !request.ForVault?
    ensures var scoped := Serve(canon, s, tag, d, Envelope(d.token, ForVault(path, request)), w);
            if canon(path).Some? && canon(path) == canon(d.path)
            then scoped == Serve(canon, s, tag, d, Envelope(d.token, request), w)
            else scoped.state == s && scoped.response.Error?
  {}

  /** The entry that the daemon resolved for the mutation sent to it, or the file for the one made on it. */
  predicate IsResolved(canon: Canon, s: State, tag: nat, v: Case, id: nat) {
    if Found(canon, s, tag, v).Some? && !v.fate.Refused? then
      && v.lookup.Served? && v.lookup.work.outcome == Ok(id)
      && v.client.token == v.lookup.daemon.token != ""
    else v.direct.open.Ok? && v.direct.resolved == Ok(id)
  }

  /** A request for a vault inside another one is refused. */
  lemma NestedRequestsAreRefused(canon: Canon, s: State, tag: nat, d: Daemon, token: string, path: string,
                                 inner: Request, w: Work)
    requires inner.ForVault?
    ensures var service := Serve(canon, s, tag, d, Envelope(token, ForVault(path, inner)), w);
            service.state == s && service.response.Error?
  {}

  /** Asking whether a daemon is there, and locking it, concern every vault: they go out bare. */
  lemma PingAndLockNeedNoVault(canon: Canon, s: State, tag: nat, d: Daemon, client: Client, w: Work)
    requires d.token != "" && client.token == d.token
    ensures Serve(canon, s, tag, d, Wrapped(client, Ping), w).response == Pong
    ensures Serve(canon, s, tag, d, Wrapped(client, Lock), w).response == LockSuccess
  {}

  /** A change made by a daemon differs in content always when it adds an entry or moves one to the trash, and when
      the manager says so when it edits one or deletes it permanently. */
  lemma ServedContent(canon: Canon, s: State, tag: nat, d: Daemon, client: Client, m: Mutation, w: Work)
    ensures var made := Made(s, Serve(canon, s, tag, d, Wrapped(client, Mutate(m)), w).state);
            made.Some? ==> (made.value.content <==> m.Add? || (m.Delete? && !m.permanent) || w.content)
  {
    ServeUnfolds(canon, s, tag, d, client, m, w);
  }

  /** When the direct path succeeds: the vault opens, the entry is there unless one is added, the manager makes the
      change, its own save works unless nothing was edited, and so does the save behind it. */
  lemma DirectSucceedsIff(canon: Canon, s: State, tag: nat, client: Client, c: Command, d: Direct)
    ensures Directly(canon, s, tag, client, c, d).report.result.Ok?
            <==> (&& d.open.Ok? && (c.AddEntry? || d.resolved.Ok?) && d.work.outcome.Ok?
                  && ((c.EditEntry? && !d.work.content) || d.work.first.Works?) && d.work.second.Works?)
  {}

  /** A change told from the command line and the entry that was resolved for it. */
  predicate SpelledOut(canon: Canon, s: State, tag: nat, v: Case, m: Mutation) {
    match m
    case Add(entry) => v.command == AddEntry(entry)
    case Update(id, changes) =>
      v.command.EditEntry? && v.command.changes == changes && IsResolved(canon, s, tag, v, id)
    case Delete(id, permanent) =>
      v.command.DeleteEntry? && v.command.permanent == permanent && IsResolved(canon, s, tag, v, id)
  }

  lemma AskedForSpelledOut(canon: Canon, s: State, tag: nat, v: Case)
    requires AskedFor(canon, s, tag, v).Some?
    ensures SpelledOut(canon, s, tag, v, AskedFor(canon, s, tag, v).value)
  {}

  // ---- What the daemon makes of a mutation

  predicate ServesToken(d: Daemon, client: Client) { d.token != "" && client.token == d.token }

  /** A daemon leaves everything as it is: for want of the token or the vault, because the manager refuses, or
      because the change must save itself and the file is not replaced. */
  predicate Idle(canon: Canon, s: State, d: Daemon, client: Client, m: Mutation, w: Work) {
    || !Authorized(d, Wrapped(client, Ping))
    || (client.given.Some? && !SameVault(canon, client.given.value, d.path))
    || w.outcome.Err?
    || (WorkOn(m, w).saves && !Replaces(DaemonVault(canon, s, d), w.first))
  }

  /** A daemon's answer to a mutation tells the truth: success exactly when it kept the change. And it leaves
      everything as it is exactly when it is idle. */
  lemma ServiceIsTruthful(canon: Canon, s: State, tag: nat, d: Daemon, client: Client, m: Mutation, w: Work)
    ensures var service := Serve(canon, s, tag, d, Wrapped(client, Mutate(m)), w);
            var made := Made(s, service.state);
            && (made.None? ==> service.state == s)
            && (made.None? <==> Idle(canon, s, d, client, m, w))
            && (made.Some? ==>
                  && OneChange(s, service.state, tag, m)
                  && made.value.maker == ByDaemon(d) && made.value.name == Name(canon, d.path)
                  && (client.given.Some? ==> SameVault(canon, client.given.value, d.path)))
            && (service.response.Error? || Expected(m, service.response))
            && (Expected(m, service.response) <==> made.Some? && made.value.kept)
  {
    ServeUnfolds(canon, s, tag, d, client, m, w);
  }

  lemma ServeUnfolds(canon: Canon, s: State, tag: nat, d: Daemon, client: Client, m: Mutation, w: Work)
    ensures var service := Serve(canon, s, tag, d, Wrapped(client, Mutate(m)), w);
            if Authorized(d, Wrapped(client, Ping))
               && (client.given.Some? ==> SameVault(canon, client.given.value, d.path))
            then service == ServeMutation(canon, s, tag, d, m, w)
            else service.state == s && service.response.Error?
  {}

  // ---- What a command makes

  /** A command misled by a reply: its mutation is sent to a daemon that leaves everything as it is, and in
      place of the daemon's answer comes a success of the kind asked for. */
  predicate Misled(canon: Canon, s: State, tag: nat, v: Case) {
    && Sends(canon, s, tag, v)
    && v.fate.Served? && v.fate.reply.Swapped? && Expected(Wanted(v.command, 0), v.fate.reply.response)
    && Idle(canon, s, v.fate.daemon, v.client, Wanted(v.command, Found(canon, s, tag, v).value), v.fate.work)
  }

  lemma WhatSendingMakes(canon: Canon, s: State, tag: nat, v: Case, id: nat)
    requires !v.fate.Refused?
    ensures var m := Wanted(v.command, id);
            var run := Sent(canon, s, tag, v, id);
            var made := Made(s, run.state);
            && run.report.said == run.report.result.Ok?
            && (v.fate.Waiting? ==> OneWaits(s, run.state, tag, v.client, m))
            && (made.Some? ==> made.value.maker.ByDaemon? && ServesToken(made.value.maker.daemon, v.client))
            && (run.state == s || made.Some? || (v.fate.Waiting? && OneWaits(s, run.state, tag, v.client, m)))
            && (made.Some? ==>
                  && v.fate.Served? && OneChange(s, run.state, tag, m)
                  && made.value.maker == ByDaemon(v.fate.daemon) && made.value.name == Name(canon, v.fate.daemon.path)
                  && (v.client.given.Some? ==> SameVault(canon, v.client.given.value, v.fate.daemon.path)))
            && (run.report.result.Ok? <==>
                  && v.fate.Served?
                  && (match v.fate.reply
                      case Intact => made.Some? && made.value.kept
                      case Gone => false
                      case Swapped(other) => Expected(Wanted(v.command, 0), other)))
            && (run.report.result.Ok? ==>
                  if Idle(canon, s, v.fate.daemon, v.client, m, v.fate.work) then run.state == s else made.Some?)
  {
    if v.fate.Served? {
      ServiceIsTruthful(canon, s, tag, v.fate.daemon, v.client, Wanted(v.command, id), v.fate.work);
    }
  }

  lemma WhatTheFileMakes(canon: Canon, s: State, tag: nat, client: Client, c: Command, d: Direct)
    ensures var run := Directly(canon, s, tag, client, c, d);
            var made := Made(s, run.state);
            && (made.None? ==> run.state == s)
            && (made.Some? ==>
                  && OnFile(c, d).Ok? && OneChange(s, run.state, tag, OnFile(c, d).value)
                  && made.value.maker == ByFile
                  && made.value.name == Name(canon, if client.given.Some? then client.given.value else client.fallback)
                  && (made.value.kept <==> (WorkOn(made.value.mutation, d.work).saves ==> d.work.first.Works?)))
            && (run.report.result.Ok? ==> run.report.said && made.Some? && made.value.kept)
            && (run.report.result.Ok? <==> made.Some? && made.value.kept && d.work.second.Works?)
            && ((run.report.said && run.report.result.Err?) <==>
                  && c.DeleteEntry? && OnFile(c, d).Ok? && d.work.outcome.Ok?
                  && d.work.first.Works? && !d.work.second.Works?)
  {
    if OnFile(c, d).Ok? {
      ManageIsSound(FreshVault(canon, s, PathOf(client)), |s.log|, WorkOn(OnFile(c, d).value, d.work));
    }
  }

  /** Whatever happens to its requests and replies, a command makes the change it chose once, or has sent it
      once and not heard of it, or has changed nothing. When it reports success it has made that change once,
      unless it was misled. */
  lemma CommandOnce(canon: Canon, s: State, tag: nat, v: Case)
    ensures var run := Executed(canon, s, tag, v);
            var chosen := Chosen(canon, s, tag, v);
            && (run.state == s || (chosen.Some? && OneChange(s, run.state, tag, chosen.value))
                || (chosen.Some? && OneWaits(s, run.state, tag, v.client, chosen.value)))
            && (run.report.result.Ok? ==>
                  if Misled(canon, s, tag, v) then run.state == s
                  else chosen.Some? && OneChange(s, run.state, tag, chosen.value))
  {
    RouteTaken(canon, s, tag, v);
    if Sends(canon, s, tag, v) {
      WhatSendingMakes(canon, s, tag, v, Found(canon, s, tag, v).value);
    } else {
      WhatTheFileMakes(canon, s, tag, v.client, v.command, v.direct);
    }
  }

  /** A command reports success without any change exactly when it is misled. The client does not know who
      answers, and asks no more of the reply than its kind. */
  lemma SuccessWithoutChangeIff(canon: Canon, s: State, tag: nat, v: Case)
    ensures var run := Executed(canon, s, tag, v);
            (run.report.result.Ok? && Made(s, run.state).None?) <==> Misled(canon, s, tag, v)
  {
    RouteTaken(canon, s, tag, v);
    if Sends(canon, s, tag, v) {
      WhatSendingMakes(canon, s, tag, v, Found(canon, s, tag, v).value);
    } else {
      WhatTheFileMakes(canon, s, tag, v.client, v.command, v.direct);
    }
  }

  /** A command that reports success has made the change it was asked for exactly when it was neither misled
      nor misdirected. */
  lemma SuccessIsAsAskedIff(canon: Canon, s: State, tag: nat, v: Case)
    requires Executed(canon, s, tag, v).report.result.Ok?
    ensures var made := Made(s, Executed(canon, s, tag, v).state);
            (made.Some? && Some(made.value.mutation) == AskedFor(canon, s, tag, v))
            <==> !Misled(canon, s, tag, v) && !Misdirected(canon, s, tag, v)
  {
    CommandOnce(canon, s, tag, v);
    ActsAsAskedIff(canon, s, tag, v);
  }

  /** It can happen, whoever the daemon is and whatever it is said to have added: an entry that it refuses to add
      is reported added. */
  lemma AddCanBeMisled(canon: Canon, s: State, tag: nat, client: Client, entry: string, w: Work, d: Daemon, id: nat,
                       direct: Direct)
    requires w.outcome.Err?
    ensures var v := Case(client, AddEntry(entry), Refused, Served(d, w, Swapped(AddSuccess(id))), direct);
            Misled(canon, s, tag, v) && Executed(canon, s, tag, v) == Run(s, Report(Ok(()), true))
  {
    var v := Case(client, AddEntry(entry), Refused, Served(d, w, Swapped(AddSuccess(id))), direct);
    RouteTaken(canon, s, tag, v);
    WhatSendingMakes(canon, s, tag, v, 0);
  }

  /** And so can this, with a daemon that the client may use: a deletion reports success, the entry that the
      daemon resolved is untouched, and another one is deleted. */
  lemma DeleteCanBeMisdirected(canon: Canon, s: State, tag: nat, client: Client, query: string, permanent: bool,
                               d: Daemon, resolved: nat, other: nat, direct: Direct)
    requires resolved != other && Authorized(d, Wrapped(client, Ping)) && Current(DaemonVault(canon, s, d))
    requires client.given.Some? ==> SameVault(canon, client.given.value, d.path)
    ensures var found := Served(d, Work(Ok(resolved), true, true, Works, Works), Swapped(Entry(other)));
            var done := Served(d, Work(Ok(other), true, true, Works, Works), Intact);
            var v := Case(client, DeleteEntry(query, permanent), found, done, direct);
            var run := Executed(canon, s, tag, v);
            && Misdirected(canon, s, tag, v) && !Misled(canon, s, tag, v) && run.report.result.Ok?
            && AskedFor(canon, s, tag, v) == Some(Delete(resolved, permanent))
            && OneChange(s, run.state, tag, Delete(other, permanent))
  {
    var found := Served(d, Work(Ok(resolved), true, true, Works, Works), Swapped(Entry(other)));
    var work := Work(Ok(other), true, true, Works, Works);
    var v := Case(client, DeleteEntry(query, permanent), found, Served(d, work, Intact), direct);
    var m := Delete(other, permanent);
    LookupGives(canon, s, tag, v);
    LookupAnswer(canon, s, tag, v, resolved);
    KeptIffSaved(DaemonVault(canon, s, d), |s.log|, WorkOn(m, work));
    RouteTaken(canon, s, tag, v);
    WhatSendingMakes(canon, s, tag, v, other);
    ServiceIsTruthful(canon, s, tag, d, client, m, work);
    ServeUnfolds(canon, s, tag, d, client, m, work);
  }

  lemma LookupAnswer(canon: Canon, s: State, tag: nat, v: Case, id: nat)
    requires !v.command.AddEntry? && v.lookup.Served? && v.lookup.work.outcome == Ok(id)
    requires Authorized(v.lookup.daemon, Wrapped(v.client, Ping))
    requires v.client.given.Some? ==> SameVault(canon, v.client.given.value, v.lookup.daemon.path)
    ensures Answered(canon, s, tag, v) == Some(id)
  {}

  /** A success that did not arrive in another reply's place is the manager's own: the change is kept. */
  lemma SuccessIsKept(canon: Canon, s: State, tag: nat, v: Case)
    requires Executed(canon, s, tag, v).report.result.Ok?
    requires Sends(canon, s, tag, v) && v.fate.Served? ==> !v.fate.reply.Swapped?
    ensures var made := Made(s, Executed(canon, s, tag, v).state); made.Some? && made.value.kept
  {
    RouteTaken(canon, s, tag, v);
    if Sends(canon, s, tag, v) {
      WhatSendingMakes(canon, s, tag, v, Found(canon, s, tag, v).value);
    } else {
      WhatTheFileMakes(canon, s, tag, v.client, v.command, v.direct);
    }
  }

  /** A failing command has printed success exactly when it deleted on the file, the deletion saved itself, and
      the save behind it failed. */
  lemma SaidButFailedIff(canon: Canon, s: State, tag: nat, v: Case)
    ensures var report := Executed(canon, s, tag, v).report;
            && (report.result.Ok? ==> report.said)
            && ((report.said && report.result.Err?)
                <==> (&& v.command.DeleteEntry? && !Sends(canon, s, tag, v) && OnFile(v.command, v.direct).Ok?
                      && v.direct.work.outcome.Ok? && v.direct.work.first.Works? && !v.direct.work.second.Works?))
  {
    RouteTaken(canon, s, tag, v);
    if Sends(canon, s, tag, v) {
      WhatSendingMakes(canon, s, tag, v, Found(canon, s, tag, v).value);
    } else {
      WhatTheFileMakes(canon, s, tag, v.client, v.command, v.direct);
    }
  }

  /** When an error hides the change that a command has made: the request was still waiting when the command
      gave up, or the daemon's reply was lost, replaced by another kind, or told of a save that failed after
      replacing the file; or, on the file, one of the saves failed. */
  predicate Hides(v: Case, e: Event) {
    match e.maker
    case ByFile => !e.kept || !v.direct.work.second.Works?
    case ByDaemon(_) =>
      || v.fate.Waiting?
      || (v.fate.Served? && match v.fate.reply
                            case Intact => !e.kept
                            case Gone => true
                            case Swapped(other) => !Expected(Wanted(v.command, 0), other))
  }

  lemma ChangedButFailedIff(canon: Canon, s: State, tag: nat, v: Case, e: Event)
    requires Made(s, Executed(canon, s, tag, v).state) == Some(e)
    ensures Executed(canon, s, tag, v).report.result.Err? <==> Hides(v, e)
    ensures e.maker.ByDaemon? ==> v.fate.Served?
  {
    RouteTaken(canon, s, tag, v);
    if Sends(canon, s, tag, v) {
      WhatSendingMakes(canon, s, tag, v, Found(canon, s, tag, v).value);
    } else {
      WhatTheFileMakes(canon, s, tag, v.client, v.command, v.direct);
    }
  }
}
