/** The git credential helper: a bounded reader of `key=value` lines, the choice of an entry, and the reply. */
module GitCredential {
  import opened Results
  import opened Text

  const LIMIT: nat := 0x4000

  /** Standard input: the longest valid UTF-8 text it starts with, and whether other bytes follow. */
  datatype Input = Input(text: string, broken: bool)

  // ---- Lines

  /** The length of the first line, with its line feed when it has one. */
  function LineEnd(text: string): (e: nat)
    ensures e <= |text|
    ensures text != [] ==> e > 0
    ensures forall i :: 0 <= i < e - 1 ==> text[i] != '\n'
    ensures e < |text| ==> text[e - 1] == '\n'
  {
    if text == [] then 0 else if text[0] == '\n' then 1 else 1 + LineEnd(text[1..])
  }

  function FirstLine(text: string): string { text[..LineEnd(text)] }

  /** Whether the first line ends in a line feed rather than at the end of the text. */
  predicate Ended(text: string) {
    var e := LineEnd(text); e > 0 && text[e - 1] == '\n'
  }

  predicate IsLineEnd(c: char) { c == '\r' || c == '\n' }

  /** The line without the carriage returns and line feeds at its end. */
  function Body(line: string): string {
    if line != [] && IsLineEnd(line[|line| - 1]) then Body(line[..|line| - 1]) else line
  }

  /** The text before and behind the first separator. */
  function SplitOnce(s: string, sep: char): Option<(string, string)> {
    if s == [] then None
    else if s[0] == sep then Some(([], s[1..]))
    else match SplitOnce(s[1..], sep) case Some((key, value)) => Some(([s[0]] + key, value)) case None => None
  }

  lemma SizeOfPrefix(a: string, n: nat, m: nat)
    requires n <= m <= |a|
    ensures Utf8Len(a[..n]) <= Utf8Len(a[..m])
  {
    assert a[..m] == a[..n] + a[n..m];
    SizeConcat(a[..n], a[n..m]);
  }

  lemma SizeOfNext(a: string, n: nat)
    requires n < |a|
    ensures Utf8Len(a[..n + 1]) == Utf8Len(a[..n]) + Utf8Size(a[n])
  {
    assert a[..n + 1] == a[..n] + [a[n]];
    SizeConcat(a[..n], [a[n]]);
    assert [a[n]][1..] == [];
  }

  datatype LineRead = Failed | Line(text: string)

  /** Reads a line of at most the given number of bytes. A line that fits is read whole; another one is
      cut to exactly that many bytes, or fails where the cut is inside a character. */
  method ReadLine(input: Input, limit: nat) returns (r: LineRead)
    ensures var first := FirstLine(input.text);
            var whole := Utf8Len(first) <= limit && (input.broken ==> Ended(input.text));
            && (whole ==> r == Line(first))
            && (!whole && r.Line? ==> Utf8Len(r.text) == limit)
  {
    ghost var e := LineEnd(input.text);
    var n, size := 0, 0;
    while n < |input.text| && size < limit && (n == 0 || input.text[n - 1] != '\n')
      invariant n <= e && size == Utf8Len(input.text[..n]) <= limit
    {
      SizeOfNext(input.text, n);
      SizeOfPrefix(input.text, n + 1, e);
      var width := Utf8Size(input.text[n]);
      if size + width > limit {
        return Failed;
      }
      n, size := n + 1, size + width;
    }
    if n == |input.text| && input.broken && size < limit && (n == 0 || input.text[n - 1] != '\n') {
      return Failed;
    }
    SizeOfPrefix(input.text, n, e);
    if size == limit && n < e { CutIsShorter(input.text, n, e); }
    r := Line(input.text[..n]);
  }

  lemma CutIsShorter(text: string, n: nat, e: nat)
    requires n < e <= |text|
    ensures Utf8Len(text[..n]) < Utf8Len(text[..e])
  {
    SizeOfNext(text, n);
    SizeOfPrefix(text, n + 1, e);
  }

  // ---- The fields of a request

  datatype Field = Protocol | Host | Url | Username | Unknown

  function FieldOf(key: string): Field {
    if key == "protocol" then Protocol else if key == "host" then Host
    else if key == "url" then Url else if key == "username" then Username else Unknown
  }

  /** Reading so far: the bytes used and the values found, or a refusal. */
  datatype Progress = Refused | Going(total: nat, fields: map<Field, string>)

  /** What a line amounts to: a refusal, the end of the request, or a pair and the bytes used by then. */
  datatype Turn = Bad | End | Pair(key: string, value: string, sum: nat)

  function LineTurn(line: string, total: nat): Turn {
    var sum := total + Utf8Len(line);
    if sum > LIMIT || '\0' in line then Bad
    else if Body(line) == [] then End
    else match SplitOnce(Body(line), '=') case Some((key, value)) => Pair(key, value, sum) case None => Bad
  }

  function FirstTurn(input: Input, total: nat): (turn: Turn)
    ensures turn.Pair? ==> input.text != []
  {
    if input.broken && !Ended(input.text) then Bad else LineTurn(FirstLine(input.text), total)
  }

  function Added(fields: map<Field, string>, pair: Turn): Progress
    requires pair.Pair?
  {
    var field := FieldOf(pair.key);
    if field == Unknown then Going(pair.sum, fields)
    else if field in fields then Refused
    else Going(pair.sum, fields[field := pair.value])
  }

  /** What a line that is not blank adds. */
  function Step(p: Progress, line: string): Progress {
    match p case Refused => Refused case Going(total, fields) =>
    var turn := LineTurn(line, total);
    if turn.Pair? then Added(fields, turn) else Refused
  }

  /** The fields read from the first line on, up to a blank line or the end of the input. */
  function Gathered(input: Input, p: Progress): Option<map<Field, string>>
    decreases |input.text|
  {
    match p case Refused => None case Going(total, fields) =>
    match FirstTurn(input, total)
    case Bad => None
    case End => Some(fields)
    case Pair(key, value, sum) =>
      Gathered(input.(text := input.text[LineEnd(input.text)..]), Added(fields, Pair(key, value, sum)))
  }

  predicate Holds(fields: map<Field, string>, field: Field, value: Option<string>) {
    if field in fields then value == Some(fields[field]) else value == None
  }

  datatype Locals = Locals(protocol: Option<string>, host: Option<string>, url: Option<string>,
                           username: string, usernameSeen: bool)

  predicate Mirrors(l: Locals, fields: map<Field, string>) {
    && Holds(fields, Protocol, l.protocol) && Holds(fields, Host, l.host) && Holds(fields, Url, l.url)
    && Holds(fields, Username, if l.usernameSeen then Some(l.username) else None)
    && (!l.usernameSeen ==> l.username == []) && Unknown !in fields
  }

  method StoreField(l: Locals, key: string, value: string, ghost fields: map<Field, string>)
      returns (stored: Option<Locals>)
    requires Mirrors(l, fields)
    ensures stored.None? <==> FieldOf(key) != Unknown && FieldOf(key) in fields
    ensures stored.Some? ==>
              Mirrors(stored.value, if FieldOf(key) == Unknown then fields else fields[FieldOf(key) := value])
  {
    if key == "protocol" && l.protocol.None? {
      stored := Some(l.(protocol := Some(value)));
    } else if key == "host" && l.host.None? {
      stored := Some(l.(host := Some(value)));
    } else if key == "url" && l.url.None? {
      stored := Some(l.(url := Some(value)));
    } else if key == "username" && !l.usernameSeen {
      stored := Some(l.(username := value, usernameSeen := true));
    } else if key == "protocol" || key == "host" || key == "url" || key == "username" {
      stored := None;
    } else {
      stored := Some(l);
    }
  }

  /** One turn of the reader: only a line that fits what is left of the budget counts. */
  method ReadTurn(rest: Input, total: nat) returns (turn: Turn)
    requires total <= LIMIT
    ensures turn == FirstTurn(rest, total)
    ensures turn.Pair? ==> turn.sum <= LIMIT
  {
    var r := ReadLine(rest, LIMIT + 1 - total);
    if r.Failed? {
      return Bad;
    }
    var sum := total + Utf8Len(r.text);
    if sum > LIMIT || '\0' in r.text {
      return Bad;
    }
    var line := Body(r.text);
    if line == [] {
      return End;
    }
    var pair := SplitOnce(line, '=');
    if pair.None? {
      return Bad;
    }
    turn := Pair(pair.value.0, pair.value.1, sum);
  }

  /** The loop of the reader. What is left of the budget is positive at every turn. */
  method ReadFields(input: Input) returns (read: Option<Locals>)
    ensures match Gathered(input, Going(0, map[]))
            case Some(fields) => read.Some? && Mirrors(read.value, fields)
            case None => read == None
  {
    var l := Locals(None, None, None, [], false);
    var rest := input;
    var total: nat := 0;
    ghost var fields: map<Field, string> := map[];
    while true
      invariant total <= LIMIT && Mirrors(l, fields)
      invariant Gathered(rest, Going(total, fields)) == Gathered(input, Going(0, map[]))
      decreases |rest.text|
    {
      var turn := ReadTurn(rest, total);
      match turn {
        case Bad => return None;
        case End => return Some(l);
        case Pair(key, value, sum) =>
          var stored := StoreField(l, key, value, fields);
          if stored.None? {
            return None;
          }
          l, total := stored.value, sum;
          if FieldOf(key) != Unknown { fields := fields[FieldOf(key) := value]; }
          rest := rest.(text := rest.text[LineEnd(rest.text)..]);
      }
    }
  }

  // ---- The order of the lines

  function Fold(p: Progress, lines: seq<string>): Progress
    decreases |lines|
  {
    if lines == [] then p else Fold(Step(p, lines[0]), lines[1..])
  }

  predicate IsLine(line: string) { LineEnd(line) == |line| && Ended(line) && Body(line) != [] }

  function Concat(lines: seq<string>): string {
    if lines == [] then [] else lines[0] + Concat(lines[1..])
  }

  lemma {:induction false} LineInFront(line: string, rest: string)
    requires LineEnd(line) == |line| && Ended(line)
    ensures LineEnd(line + rest) == |line| && Ended(line + rest)
    ensures FirstLine(line + rest) == line && (line + rest)[|line|..] == rest
  {
    if line[0] != '\n' {
      assert (line + rest)[1..] == line[1..] + rest;
      LineInFront(line[1..], rest);
    }
    assert (line + rest)[..|line|] == line;
  }

  lemma {:induction false} GatheredLines(lines: seq<string>, stop: Input, p: Progress)
    requires forall i :: 0 <= i < |lines| ==> IsLine(lines[i])
    ensures Gathered(Input(Concat(lines) + stop.text, stop.broken), p) == Gathered(stop, Fold(p, lines))
    decreases |lines|
  {
    if lines == [] {
      assert Concat(lines) + stop.text == stop.text;
    } else {
      var behind := Concat(lines[1..]) + stop.text;
      assert Concat(lines) + stop.text == lines[0] + behind;
      LineInFront(lines[0], behind);
      GatheredLines(lines[1..], stop, Step(p, lines[0]));
      if p.Going? && Step(p, lines[0]).Refused? { FoldRefused(lines[1..]); }
    }
  }

  lemma {:induction false} FoldRefused(lines: seq<string>)
    ensures Fold(Refused, lines) == Refused
    decreases |lines|
  {
    if lines != [] { FoldRefused(lines[1..]); }
  }

  lemma StepsCommute(p: Progress, a: string, b: string)
    ensures Step(Step(p, a), b) == Step(Step(p, b), a)
  {
    if p.Going? && LineTurn(a, p.total).Pair? && LineTurn(b, p.total).Pair? {
      var x, y := LineTurn(a, p.total), LineTurn(b, p.total);
      var (f, g) := (FieldOf(x.key), FieldOf(y.key));
      if f != g {
        assert p.fields[f := x.value][g := y.value] == p.fields[g := y.value][f := x.value];
      }
    }
  }

  lemma FrontStays(lines: seq<string>, k: nat)
    requires 0 < k < |lines|
    ensures var others := lines[..k] + lines[k + 1..];
            others[0] == lines[0] && others[1..] == lines[1..][..k - 1] + lines[1..][k..]
  {}

  lemma {:induction false} ToFront(p: Progress, lines: seq<string>, k: nat)
    requires k < |lines|
    decreases |lines|
    ensures Fold(p, lines) == Fold(Step(p, lines[k]), lines[..k] + lines[k + 1..])
  {
    if k > 0 {
      ToFront(Step(p, lines[0]), lines[1..], k - 1);
      StepsCommute(p, lines[0], lines[k]);
      FrontStays(lines, k);
    } else {
      assert lines[..0] + lines[1..] == lines[1..];
    }
  }

  lemma OneTaken(lines: seq<string>, k: nat)
    requires k < |lines|
    ensures multiset(lines[..k] + lines[k + 1..]) == multiset(lines) - multiset{lines[k]}
  {
    assert lines == lines[..k] + [lines[k]] + lines[k + 1..];
  }

  lemma HeadTaken(lines: seq<string>)
    requires lines != []
    ensures lines[0] in multiset(lines) && multiset(lines[1..]) == multiset(lines) - multiset{lines[0]}
  {
    assert lines == [lines[0]] + lines[1..];
  }

  lemma SameFirst(a: seq<string>, b: seq<string>) returns (k: nat)
    requires a != [] && multiset(a) == multiset(b)
    ensures k < |b| && b[k] == a[0] && multiset(a[1..]) == multiset(b[..k] + b[k + 1..])
  {
    HeadTaken(a);
    assert a[0] in multiset(b);
    k :| 0 <= k < |b| && b[k] == a[0];
    OneTaken(b, k);
  }

  lemma {:induction false} FoldPermuted(p: Progress, a: seq<string>, b: seq<string>)
    requires multiset(a) == multiset(b)
    ensures Fold(p, a) == Fold(p, b)
    decreases |a|
  {
    if a == [] {
      assert |multiset(b)| == 0;
    } else {
      var k := SameFirst(a, b);
      ToFront(p, b, k);
      FoldPermuted(Step(p, a[0]), a[1..], b[..k] + b[k + 1..]);
    }
  }

  /** The lines of a request can come in any order. */
  lemma OrderDoesNotMatter(a: seq<string>, b: seq<string>, stop: Input, p: Progress)
    requires multiset(a) == multiset(b)
    requires forall line :: line in a ==> IsLine(line)
    ensures Gathered(Input(Concat(a) + stop.text, stop.broken), p)
         == Gathered(Input(Concat(b) + stop.text, stop.broken), p)
  {
    forall i | 0 <= i < |b| ensures IsLine(b[i]) { assert b[i] in multiset(b); assert b[i] in a; }
    GatheredLines(a, stop, p);
    GatheredLines(b, stop, p);
    FoldPermuted(p, a, b);
  }

  predicate LastLineWhole(used: string, behind: string) {
    behind == [] || (used != [] && used[|used| - 1] == '\n')
  }

  lemma TurnFits(input: Input, total: nat)
    requires FirstTurn(input, total) != Bad
    ensures var line, rest := FirstLine(input.text), input.text[LineEnd(input.text)..];
            && input.text == line + rest && total + Utf8Len(line) <= LIMIT && LastLineWhole(line, rest)
            && '\0' !in line && (input.broken ==> line != [] && line[|line| - 1] == '\n')
            && (FirstTurn(input, total).Pair? ==> FirstTurn(input, total).sum == total + Utf8Len(line))
  {}

  lemma JoinUsed(line: string, more: string, behind: string)
    requires LastLineWhole(line, more + behind) && LastLineWhole(more, behind)
    ensures line + (more + behind) == (line + more) + behind && LastLineWhole(line + more, behind)
    ensures Utf8Len(line + more) == Utf8Len(line) + Utf8Len(more)
  {
    SizeConcat(line, more);
    if more != [] { assert (line + more)[|line + more| - 1] == more[|more| - 1]; } else { assert line + more == line; }
  }

  /** A request that is accepted was read whole: its lines, up to the one that ends it, fit the budget. */
  lemma {:induction false} AcceptedFitsBudget(input: Input, total: nat, fields: map<Field, string>)
      returns (used: string, behind: string)
    requires Gathered(input, Going(total, fields)).Some?
    ensures input.text == used + behind && total + Utf8Len(used) <= 0x4000 && LastLineWhole(used, behind)
    ensures '\0' !in used && (input.broken ==> used != [] && used[|used| - 1] == '\n')
    decreases |input.text|
  {
    TurnFits(input, total);
    used, behind := FirstLine(input.text), input.text[LineEnd(input.text)..];
    var turn := FirstTurn(input, total);
    if turn.Pair? {
      var line, next := used, Added(fields, turn);
      used, behind := AcceptedFitsBudget(input.(text := behind), next.total, next.fields);
      JoinUsed(line, used, behind);
      used := line + used;
    }
  }

  // ---- The origin asked for

  datatype Location = Location(scheme: string, host: Option<string>, username: string, password: Option<string>,
                               origin: string)

  /** The URL parser. */
  type Parser = string -> Option<Location>

  datatype Request = Request(origin: string, username: string)

  predicate IsControl(c: char) { c as int < 0x20 || 0x7f <= c as int < 0xa0 }

  /** The origin of an HTTPS address without user information. */
  function HttpsOrigin(parse: Parser, value: string): Option<string> {
    if exists i :: 0 <= i < |value| && (IsControl(value[i]) || value[i] == '\\') then None else
    match parse(value) case None => None case Some(url) =>
    if url.scheme == "https" && url.host.Some? && url.username == "" && url.password.None? then Some(url.origin)
    else None
  }

  /** An address with an origin: it parses as HTTPS with a host and without user information, and has neither control
      characters nor backslashes. */
  predicate IsHttps(parse: Parser, value: string, origin: string) {
    && (forall i :: 0 <= i < |value| ==>
          value[i] != '\\' && value[i] as int >= 0x20 && !(0x7f <= value[i] as int < 0xa0))
    && parse(value).Some?
    && (var url := parse(value).value;
        url.scheme == "https" && url.host.Some? && url.username == "" && url.password == None && url.origin == origin)
  }

  lemma HttpsOriginIff(parse: Parser, value: string, origin: string)
    ensures HttpsOrigin(parse, value) == Some(origin) <==> IsHttps(parse, value, origin)
  {}

  predicate PlainHost(host: string) {
    && host != ""
    && forall i :: 0 <= i < |host| ==>
         !IsSpace(host[i]) && host[i] != '/' && host[i] != '\\' && host[i] != '@' && host[i] != '?' && host[i] != '#'
  }

  function Interpreted(parse: Parser, fields: map<Field, string>): Option<Request> {
    var origin :=
      if Protocol in fields && Host in fields then
        if fields[Protocol] == "https" && PlainHost(fields[Host])
        then HttpsOrigin(parse, "https://" + fields[Host] + "/") else None
      else if Protocol !in fields && Host !in fields && Url in fields then HttpsOrigin(parse, fields[Url])
      else None;
    if origin.None? || (Url in fields && HttpsOrigin(parse, fields[Url]) != origin) then None
    else Some(Request(origin.value, if Username in fields then fields[Username] else ""))
  }

  /** All addresses that the fields give. */
  function Addresses(fields: map<Field, string>): set<string> {
    (if Host in fields then {"https://" + fields[Host] + "/"} else {}) + (if Url in fields then {fields[Url]} else {})
  }

  /** The fields make a request exactly when they give an address, protocol and host come together and are
      plain HTTPS, and all addresses given have that one origin. */
  lemma InterpretedIff(parse: Parser, fields: map<Field, string>, origin: string, username: string)
    ensures Interpreted(parse, fields) == Some(Request(origin, username))
            <==> (&& (Protocol in fields <==> Host in fields)
                  && (Host in fields ==> fields[Protocol] == "https" && PlainHost(fields[Host]))
                  && Addresses(fields) != {}
                  && (forall address :: address in Addresses(fields) ==> HttpsOrigin(parse, address) == Some(origin))
                  && username == (if Username in fields then fields[Username] else ""))
  {
    if Host in fields { assert "https://" + fields[Host] + "/" in Addresses(fields); }
    if Url in fields { assert fields[Url] in Addresses(fields); }
  }

  function RequestIn(parse: Parser, input: Input): Option<Request> {
    match Gathered(input, Going(0, map[])) case None => None case Some(fields) => Interpreted(parse, fields)
  }

  method ReadRequest(parse: Parser, input: Input) returns (request: Option<Request>)
    ensures request == RequestIn(parse, input)
  {
    var read := ReadFields(input);
    if read.None? {
      return None;
    }
    var l := read.value;
    var origin: Option<string>;
    match (l.protocol, l.host) {
      case (Some(protocol), Some(host)) =>
        if protocol != "https" || !PlainHost(host) {
          return None;
        }
        origin := HttpsOrigin(parse, "https://" + host + "/");
      case (None, None) =>
        if l.url.None? {
          return None;
        }
        origin := HttpsOrigin(parse, l.url.value);
      case _ => return None;
    }
    if origin.None? {
      return None;
    }
    if l.url.Some? {
      var full := HttpsOrigin(parse, l.url.value);
      if full.None? || full != origin {
        return None;
      }
    }
    request := Some(Request(origin.value, l.username));
  }

  /** The request read from lines does not depend on their order. */
  lemma RequestIgnoresOrder(parse: Parser, a: seq<string>, b: seq<string>, stop: Input)
    requires multiset(a) == multiset(b)
    requires forall line :: line in a ==> IsLine(line)
    ensures RequestIn(parse, Input(Concat(a) + stop.text, stop.broken))
         == RequestIn(parse, Input(Concat(b) + stop.text, stop.broken))
  {
    OrderDoesNotMatter(a, b, stop, Going(0, map[]));
  }

  // ---- The entry and the reply

  datatype Preview = Preview(id: nat, url: string, username: string, email: string)

  datatype Entry = Entry(url: string, username: string, email: string, password: string)

  predicate Matches(parse: Parser, e: Preview, request: Request) {
    && HttpsOrigin(parse, e.url) == Some(request.origin)
    && (request.username == "" || e.username == request.username
        || (e.username == "" && e.email == request.username))
  }

  /** An entry matches with the origin asked for, and, when a user is asked for, with that user name, or with that
      mail address where it has no user name. */
  lemma MatchesIff(parse: Parser, e: Preview, request: Request)
    ensures Matches(parse, e, request)
            <==> (&& IsHttps(parse, e.url, request.origin)
                  && (request.username == "" || (if e.username == "" then e.email else e.username) == request.username))
  {
    HttpsOriginIff(parse, e.url, request.origin);
  }

  predicate OnlyMatch(parse: Parser, entries: seq<Preview>, request: Request, i: int) {
    && 0 <= i < |entries| && Matches(parse, entries[i], request)
    && forall j :: 0 <= j < |entries| && Matches(parse, entries[j], request) ==> j == i
  }

  /** The entry is chosen exactly when one and only one matches. */
  method SelectEntry(parse: Parser, entries: seq<Preview>, request: Request) returns (id: Option<nat>)
    ensures match id
            case Some(chosen) => exists i :: OnlyMatch(parse, entries, request, i) && entries[i].id == chosen
            case None =>
              || (forall i :: 0 <= i < |entries| ==> !Matches(parse, entries[i], request))
              || (exists i, j :: (0 <= i < j < |entries|
                                  && Matches(parse, entries[i], request) && Matches(parse, entries[j], request)))
  {
    var i := 0;
    while i < |entries| && !Matches(parse, entries[i], request)
      invariant i <= |entries| && forall k :: 0 <= k < i ==> !Matches(parse, entries[k], request)
    {
      i := i + 1;
    }
    if i == |entries| {
      return None;
    }
    var j := i + 1;
    while j < |entries| && !Matches(parse, entries[j], request)
      invariant i < j <= |entries| && forall k :: i < k < j ==> !Matches(parse, entries[k], request)
    {
      j := j + 1;
    }
    if j < |entries| {
      return None;
    }
    assert OnlyMatch(parse, entries, request, i);
    id := Some(entries[i].id);
  }

  predicate Breaks(c: char) { c == '\r' || c == '\n' || c == '\0' }

  predicate Sendable(text: string) { forall i :: 0 <= i < |text| ==> !Breaks(text[i]) }

  function PairLine(key: string, value: string): string { key + "=" + value + "\n" }

  function CredentialResponse(username: string, password: string): Option<string> {
    if Sendable(username) && Sendable(password)
    then Some(PairLine("username", username) + (PairLine("password", password) + "\n")) else None
  }

  /** What git reads by the same line rules: the pairs up to a blank line, and what stands behind it. */
  function Pairs(text: string): Option<(seq<(string, string)>, string)>
    decreases |text|
  {
    var line, rest := Body(FirstLine(text)), text[LineEnd(text)..];
    if line == [] then Some(([], rest)) else
    match SplitOnce(line, '=') case None => None case Some(pair) =>
    match Pairs(rest) case None => None case Some((others, behind)) => Some(([pair] + others, behind))
  }

  lemma {:induction false} SplitAtFirstSign(key: string, value: string)
    requires '=' !in key
    ensures SplitOnce(key + "=" + value, '=') == Some((key, value))
  {
    var s := key + "=" + value;
    if key != [] {
      assert s[1..] == key[1..] + "=" + value;
      SplitAtFirstSign(key[1..], value);
      assert [key[0]] + key[1..] == key;
    }
  }

  lemma {:induction false} EndsAtFeed(s: string)
    requires '\n' !in s
    ensures LineEnd(s + "\n") == |s| + 1
  {
    if s != [] {
      assert (s + "\n")[1..] == s[1..] + "\n";
      EndsAtFeed(s[1..]);
    }
  }

  lemma PairInFront(key: string, value: string, rest: string)
    requires key != [] && '=' !in key && Sendable(key) && Sendable(value) && Pairs(rest).Some?
    ensures Pairs(PairLine(key, value) + rest)
         == Some(([(key, value)] + Pairs(rest).value.0, Pairs(rest).value.1))
  {
    var body := key + "=" + value;
    assert Sendable(body) && '\n' !in body;
    EndsAtFeed(body);
    var line := PairLine(key, value);
    LineInFront(line, rest);
    assert line[..|line| - 1] == body;
    assert Body(line) == Body(body) == body;
    SplitAtFirstSign(key, value);
  }

  lemma BlankLine()
    ensures Pairs("\n") == Some(([], []))
  {
    var s: string := "\n";
    assert LineEnd(s) == 1;
    assert FirstLine(s) == s && s[..0] == [] && s[1..] == [];
    assert Body(s) == [];
  }

  lemma TwoPairs(k1: string, v1: string, k2: string, v2: string)
    requires k1 != [] && '=' !in k1 && Sendable(k1) && Sendable(v1)
    requires k2 != [] && '=' !in k2 && Sendable(k2) && Sendable(v2)
    ensures Pairs(PairLine(k1, v1) + (PairLine(k2, v2) + "\n")) == Some(([(k1, v1), (k2, v2)], []))
  {
    BlankLine();
    PairInFront(k2, v2, "\n");
    PairInFront(k1, v1, PairLine(k2, v2) + "\n");
    assert [(k1, v1)] + ([(k2, v2)] + []) == [(k1, v1), (k2, v2)];
  }

  /** A reply is read back as exactly the user name and the password it was made from, and nothing else. */
  lemma ResponseReadsBack(username: string, password: string)
    requires CredentialResponse(username, password).Some?
    ensures Pairs(CredentialResponse(username, password).value)
         == Some(([("username", username), ("password", password)], []))
  {
    TwoPairs("username", username, "password", password);
  }

  /** A reply is made exactly when neither text has a line break or U+0000 in it. */
  lemma SendableIff(username: string, password: string)
    ensures CredentialResponse(username, password).Some?
            <==> forall c :: c in username + password ==> c != '\r' && c != '\n' && c != '\0'
  {
    var both := username + password;
    if forall c :: c in both ==> c != '\r' && c != '\n' && c != '\0' {
      forall i | 0 <= i < |username| ensures !Breaks(username[i]) { assert both[i] in both; }
      forall i | 0 <= i < |password| ensures !Breaks(password[i]) { assert both[|username| + i] in both; }
    }
  }

  // ---- A request as git writes it

  lemma PairIsLine(key: string, value: string)
    requires key != [] && '=' !in key && Sendable(key) && Sendable(value)
    ensures var line := PairLine(key, value);
            && LineEnd(line) == |line| && Ended(line) && Body(line) == key + "=" + value && '\0' !in line
  {
    var body := key + "=" + value;
    var line := PairLine(key, value);
    assert Sendable(body) && '\n' !in body;
    assert line == body + "\n";
    EndsAtFeed(body);
    assert line[..|line| - 1] == body;
    assert Body(line) == Body(body) == body;
    forall i | 0 <= i < |line| ensures line[i] != '\0' { if i < |body| { assert !Breaks(body[i]); } }
  }

  lemma PairStep(total: nat, fields: map<Field, string>, key: string, value: string)
    requires key != [] && '=' !in key && Sendable(key) && Sendable(value)
    requires total + Utf8Len(PairLine(key, value)) <= LIMIT && FieldOf(key) != Unknown && FieldOf(key) !in fields
    ensures Step(Going(total, fields), PairLine(key, value))
         == Going(total + Utf8Len(PairLine(key, value)), fields[FieldOf(key) := value])
  {
    PairIsLine(key, value);
    SplitAtFirstSign(key, value);
  }

  /** The lines of a request: names that the helper knows, each once, with values that git can send. */
  predicate IsRequest(pairs: seq<(string, string)>) {
    forall i :: 0 <= i < |pairs| ==>
      && FieldOf(pairs[i].0) != Unknown && pairs[i].0 != [] && '=' !in pairs[i].0 && Sendable(pairs[i].0)
      && Sendable(pairs[i].1) && forall j :: 0 <= j < i ==> FieldOf(pairs[j].0) != FieldOf(pairs[i].0)
  }

  function LinesOf(pairs: seq<(string, string)>): seq<string> {
    seq(|pairs|, i requires 0 <= i < |pairs| => PairLine(pairs[i].0, pairs[i].1))
  }

  function FieldsOf(pairs: seq<(string, string)>): map<Field, string> {
    if pairs == [] then map[]
    else FieldsOf(pairs[..|pairs| - 1])[FieldOf(pairs[|pairs| - 1].0) := pairs[|pairs| - 1].1]
  }

  lemma {:induction false} FoldSnoc(p: Progress, lines: seq<string>, line: string)
    ensures Fold(p, lines + [line]) == Step(Fold(p, lines), line)
    decreases |lines|
  {
    if lines == [] {
      assert [line][1..] == [];
    } else {
      assert (lines + [line])[1..] == lines[1..] + [line];
      FoldSnoc(Step(p, lines[0]), lines[1..], line);
    }
  }

  lemma {:induction false} ConcatSnoc(lines: seq<string>, line: string)
    ensures Concat(lines + [line]) == Concat(lines) + line
  {
    if lines == [] {
      assert [line][1..] == [];
    } else {
      assert (lines + [line])[1..] == lines[1..] + [line];
      ConcatSnoc(lines[1..], line);
    }
  }

  lemma {:induction false} FieldsOfOthers(pairs: seq<(string, string)>, field: Field)
    ensures field in FieldsOf(pairs) <==> exists i :: 0 <= i < |pairs| && FieldOf(pairs[i].0) == field
  {
    if pairs != [] {
      var k := |pairs| - 1;
      FieldsOfOthers(pairs[..k], field);
      if exists i :: 0 <= i < |pairs| && FieldOf(pairs[i].0) == field {
        var i :| 0 <= i < |pairs| && FieldOf(pairs[i].0) == field;
        if i < k { assert pairs[..k][i] == pairs[i]; }
      }
    }
  }

  lemma {:induction false} RequestFolds(pairs: seq<(string, string)>)
    requires IsRequest(pairs) && Utf8Len(Concat(LinesOf(pairs))) <= LIMIT
    ensures Fold(Going(0, map[]), LinesOf(pairs)) == Going(Utf8Len(Concat(LinesOf(pairs))), FieldsOf(pairs))
  {
    if pairs != [] {
      var k := |pairs| - 1;
      var front, last := pairs[..k], pairs[k];
      var line := PairLine(last.0, last.1);
      assert LinesOf(pairs) == LinesOf(front) + [line];
      ConcatSnoc(LinesOf(front), line);
      SizeConcat(Concat(LinesOf(front)), line);
      RequestFolds(front);
      FoldSnoc(Going(0, map[]), LinesOf(front), line);
      FieldsOfOthers(front, FieldOf(last.0));
      PairStep(Utf8Len(Concat(LinesOf(front))), FieldsOf(front), last.0, last.1);
    }
  }

  lemma BlankEnds(fields: map<Field, string>, total: nat, behind: string, broken: bool)
    requires total < LIMIT
    ensures Gathered(Input("\n" + behind, broken), Going(total, fields)) == Some(fields)
  {
    var blank: string := "\n";
    var text := blank + behind;
    assert text[0] == '\n' && LineEnd(text) == 1 && FirstLine(text) == blank;
    assert blank[..0] == [] && blank[1..] == [];
    assert Body(blank) == [] && Utf8Len(blank) == 1;
  }

  /** A request written as such lines and a blank one, within 16 KiB, is read as exactly those fields, whatever stands
      behind it. */
  lemma RequestReadsBack(pairs: seq<(string, string)>, behind: string, broken: bool)
    requires IsRequest(pairs) && Utf8Len(Concat(LinesOf(pairs))) < 0x4000
    ensures Gathered(Input(Concat(LinesOf(pairs)) + ("\n" + behind), broken), Going(0, map[])) == Some(FieldsOf(pairs))
  {
    forall i | 0 <= i < |pairs| ensures IsLine(LinesOf(pairs)[i]) { PairIsLine(pairs[i].0, pairs[i].1); }
    GatheredLines(LinesOf(pairs), Input("\n" + behind, broken), Going(0, map[]));
    RequestFolds(pairs);
    BlankEnds(FieldsOf(pairs), Utf8Len(Concat(LinesOf(pairs))), behind, broken);
  }

  /** What git asks for an HTTPS host, in whatever order, is understood as that host's origin, with the user if one
      is named. */
  lemma HostRequestIsUnderstood(parse: Parser, pairs: seq<(string, string)>, host: string, origin: string,
                                behind: string, broken: bool)
    requires IsRequest(pairs) && Utf8Len(Concat(LinesOf(pairs))) < 0x4000
    requires var fields := FieldsOf(pairs);
             && Protocol in fields && fields[Protocol] == "https" && Host in fields && fields[Host] == host
             && Url !in fields
    requires PlainHost(host) && IsHttps(parse, "https://" + host + "/", origin)
    ensures RequestIn(parse, Input(Concat(LinesOf(pairs)) + ("\n" + behind), broken))
         == Some(Request(origin, if Username in FieldsOf(pairs) then FieldsOf(pairs)[Username] else ""))
  {
    RequestReadsBack(pairs, behind, broken);
    HttpsOriginIff(parse, "https://" + host + "/", origin);
  }

  /** The lines that git writes for a host and a user are such a request. */
  lemma HostFields(host: string, username: string)
    requires Sendable(host) && Sendable(username)
    ensures var pairs := [("protocol", "https"), ("host", host), ("username", username)];
            IsRequest(pairs) && FieldsOf(pairs) == map[Protocol := "https", Host := host, Username := username]
  {
    var pairs := [("protocol", "https"), ("host", host), ("username", username)];
    assert pairs[..2][..1][..0] == [];
    assert pairs[..2][..1][0] == pairs[0] && pairs[..2][1] == pairs[1];
    assert FieldsOf(pairs[..2][..1]) == map[Protocol := "https"];
    assert FieldsOf(pairs[..2]) == map[Protocol := "https", Host := host];
  }

  /** And so is a request that names an address instead. */
  lemma AddressRequestIsUnderstood(parse: Parser, pairs: seq<(string, string)>, address: string, origin: string,
                                   behind: string, broken: bool)
    requires IsRequest(pairs) && Utf8Len(Concat(LinesOf(pairs))) < 0x4000
    requires var fields := FieldsOf(pairs);
             Protocol !in fields && Host !in fields && Url in fields && fields[Url] == address
    requires IsHttps(parse, address, origin)
    ensures RequestIn(parse, Input(Concat(LinesOf(pairs)) + ("\n" + behind), broken))
         == Some(Request(origin, if Username in FieldsOf(pairs) then FieldsOf(pairs)[Username] else ""))
  {
    RequestReadsBack(pairs, behind, broken);
    HttpsOriginIff(parse, address, origin);
  }

  /** The lines for an address and a user are such a request. */
  lemma AddressFields(address: string, username: string)
    requires Sendable(address) && Sendable(username)
    ensures var pairs := [("url", address), ("username", username)];
            IsRequest(pairs) && FieldsOf(pairs) == map[Url := address, Username := username]
  {
    var pairs := [("url", address), ("username", username)];
    assert pairs[..1][..0] == [] && pairs[..1][0] == pairs[0];
    assert FieldsOf(pairs[..1]) == map[Url := address];
  }

  /** A line with another name is passed over, and only counts against the budget. */
  lemma OtherNamesArePassedOver(total: nat, fields: map<Field, string>, key: string, value: string)
    requires key != [] && '=' !in key && Sendable(key) && Sendable(value)
    requires key != "protocol" && key != "host" && key != "url" && key != "username"
    requires total + Utf8Len(PairLine(key, value)) <= 0x4000
    ensures Step(Going(total, fields), PairLine(key, value)) == Going(total + Utf8Len(PairLine(key, value)), fields)
  {
    PairIsLine(key, value);
    SplitAtFirstSign(key, value);
  }

  /** A name that comes again is refused. */
  lemma RepeatedNameIsRefused(total: nat, fields: map<Field, string>, key: string, value: string)
    requires key != [] && '=' !in key && Sendable(key) && Sendable(value)
    requires FieldOf(key) != Unknown && FieldOf(key) in fields
    ensures Step(Going(total, fields), PairLine(key, value)) == Refused
  {
    PairIsLine(key, value);
    SplitAtFirstSign(key, value);
  }

  /** A host is plain when it is not empty and has neither white space nor one of five signs in it. */
  lemma PlainHostIff(host: string)
    ensures PlainHost(host)
            <==> |host| > 0 && forall c :: c in host ==> !IsSpace(c) && c !in {'/', '\\', '@', '?', '#'}
  {
    if forall c :: c in host ==> !IsSpace(c) && c !in {'/', '\\', '@', '?', '#'} {
      forall i | 0 <= i < |host|
        ensures !IsSpace(host[i]) && host[i] != '/' && host[i] != '\\' && host[i] != '@' && host[i] != '?'
                && host[i] != '#'
      {
        assert host[i] in host;
      }
    }
  }

  function UserOf(e: Entry): string { if e.username == "" then e.email else e.username }

  /** The preview an entry was listed under still describes it. */
  predicate Unedited(p: Preview, e: Entry) {
    p.url == e.url && p.username == e.username && p.email == e.email
  }

  ghost predicate Granted(parse: Parser, request: Request, entries: seq<Preview>, fetch: nat -> Option<Entry>,
                          i: int, reply: string) {
    && OnlyMatch(parse, entries, request, i) && fetch(entries[i].id).Some?
    && (var e := fetch(entries[i].id).value;
        && IsHttps(parse, e.url, request.origin)
        && (request.username == "" || (if e.username == "" then e.email else e.username) == request.username)
        && Pairs(reply) == Some(([("username", if e.username == "" then e.email else e.username),
                                  ("password", e.password)], [])))
  }

  /** The whole command. What it prints is the credential of the only matching entry, which at that moment
      still has the origin and the user asked for; and it prints it unless the entry was edited in between
      or its text cannot be sent. */
  method HandleGitGet(parse: Parser, input: Input, list: Option<seq<Preview>>, fetch: nat -> Option<Entry>)
      returns (reply: Option<string>)
    ensures reply.Some? ==>
              && RequestIn(parse, input).Some? && list.Some?
              && exists i :: Granted(parse, RequestIn(parse, input).value, list.value, fetch, i, reply.value)
    ensures forall i :: (RequestIn(parse, input).Some? && list.Some?
                         && OnlyMatch(parse, list.value, RequestIn(parse, input).value, i)
                         && fetch(list.value[i].id).Some?
                         && Unedited(list.value[i], fetch(list.value[i].id).value)) ==>
              && (reply.Some? <==> (&& Sendable(UserOf(fetch(list.value[i].id).value))
                                    && Sendable(fetch(list.value[i].id).value.password)))
  {
    var request := ReadRequest(parse, input);
    if request.None? || list.None? {
      return None;
    }
    var entries := list.value;
    var id := SelectEntry(parse, entries, request.value);
    if id.None? {
      return None;
    }
    ghost var at :| OnlyMatch(parse, entries, request.value, at) && entries[at].id == id.value;
    var fetched := fetch(id.value);
    if fetched.None? {
      return None;
    }
    var e := fetched.value;
    var user := if e.username == "" then e.email else e.username;
    if HttpsOrigin(parse, e.url) != Some(request.value.origin)
       || (request.value.username != "" && user != request.value.username) {
      return None;
    }
    reply := CredentialResponse(user, e.password);
    if reply.Some? {
      ResponseReadsBack(user, e.password);
      HttpsOriginIff(parse, e.url, request.value.origin);
      assert Granted(parse, request.value, entries, fetch, at, reply.value);
    }
  }
}
