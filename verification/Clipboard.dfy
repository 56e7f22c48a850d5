/** Clipboard ownership: which copies this program may clear, and when (the Windows path). */
module Clipboard {
  import opened Bits
  import opened Results
  import opened Unicode

  // ---- The content hash

  const FNV_BASIS: nat := 0xcbf29ce484222325
  const FNV_PRIME: nat := 0x100000001b3
  const TWO64: nat := 0x1_0000_0000_0000_0000

  function HashByte(h: nat, b: byte): nat {
    Xor(h, b) * FNV_PRIME % TWO64
  }

  /** FNV-1a, continued from h. */
  function HashBytes(h: nat, bytes: seq<byte>): nat
    decreases |bytes|
  {
    if bytes == [] then h else HashBytes(HashByte(h, bytes[0]), bytes[1..])
  }

  function TextHash(text: seq<scalar>): nat {
    HashBytes(FNV_BASIS, Utf8Text(text))
  }

  lemma {:induction false} HashConcat(h: nat, a: seq<byte>, b: seq<byte>)
    ensures HashBytes(h, a + b) == HashBytes(HashBytes(h, a), b)
    decreases |a|
  {
    if a == [] {
      assert a + b == b;
    } else {
      assert (a + b)[1..] == a[1..] + b;
      HashConcat(HashByte(h, a[0]), a[1..], b);
    }
  }

  // ---- The hash depends on every byte

  lemma Undone(d: int, p: int, n: int, e: int, inverse: int, rounds: int)
    requires d * p == n * e && p * inverse == 1 + n * rounds
    ensures d == n * (e * inverse - d * rounds)
  {
    calc {
      d + d * (n * rounds);
      d * (p * inverse);
      (d * p) * inverse;
      n * (e * inverse);
    }
    assert d * (n * rounds) == n * (d * rounds);
  }

  lemma ProductGrows(n: nat, m: nat)
    requires m > 0
    ensures n * m >= n
  {}

  lemma SmallMultiple(d: int, n: nat, m: int)
    requires d == n * m && -(n as int) < d < n
    ensures d == 0
  {
    if m > 0 { ProductGrows(n, m); }
    if m < 0 { ProductGrows(n, -m); }
  }

  /** The multiplication can be undone modulo 2^64, the prime being odd. */
  lemma PrimeCancels(x: nat, y: nat)
    requires x < TWO64 && y < TWO64 && x * FNV_PRIME % TWO64 == y * FNV_PRIME % TWO64
    ensures x == y
  {
    var d, p, q := x - y, x * FNV_PRIME / TWO64, y * FNV_PRIME / TWO64;
    var inverse, rounds := 0xce965057aff6957b, 887285111055;
    Undone(d, FNV_PRIME, TWO64, p - q, inverse, rounds);
    SmallMultiple(d, TWO64, (p - q) * inverse - d * rounds);
  }

  lemma Squared(k: nat, p: nat)
    requires Pow2(k) == p
    ensures Pow2(2 * k) == p * p
  {
    Pow2Sum(k, k);
  }

  lemma WordSize(k: nat)
    requires k == 8
    ensures Pow2(8 * k) == TWO64
  {
    assert Pow2(k) == 0x100;
    Squared(k, 0x100);
    Squared(2 * k, 0x1_0000);
    Squared(4 * k, 0x1_0000_0000);
  }

  lemma WordBound(h: nat, b: byte)
    requires h < TWO64
    ensures Xor(h, b) < TWO64
  {
    var k := 8;
    WordSize(k);
    XorBound(h, b, 8 * k);
  }

  lemma XorDiffers(h: nat, a: nat, g: nat, b: nat)
    requires (h == g) != (a == b)
    ensures Xor(h, a) != Xor(g, b)
  {
    XorCancel(a, h); XorCancel(h, a); XorCancel(g, b); XorCancel(b, g);
    XorComm(h, a); XorComm(g, b);
  }

  /** Two different bytes, or two different hashes so far, give different hashes. */
  lemma HashByteDiffers(h: nat, a: byte, g: nat, b: byte)
    requires h < TWO64 && g < TWO64 && (h == g) != (a == b)
    ensures HashByte(h, a) != HashByte(g, b)
  {
    XorDiffers(h, a, g, b);
    WordBound(h, a);
    WordBound(g, b);
    if HashByte(h, a) == HashByte(g, b) { PrimeCancels(Xor(h, a), Xor(g, b)); }
  }

  lemma {:induction false} HashBytesDiffer(h: nat, g: nat, bytes: seq<byte>)
    requires h < TWO64 && g < TWO64 && h != g
    ensures HashBytes(h, bytes) != HashBytes(g, bytes)
    decreases |bytes|
  {
    if bytes != [] {
      HashByteDiffers(h, bytes[0], g, bytes[0]);
      HashBytesDiffer(HashByte(h, bytes[0]), HashByte(g, bytes[0]), bytes[1..]);
    }
  }

  /** Byte strings of one length that differ in exactly the byte at this place. */
  predicate OneByteOff(a: seq<byte>, b: seq<byte>, at: nat) {
    && |a| == |b| && at < |a| && a[at] != b[at]
    && forall k :: 0 <= k < |a| && k != at ==> a[k] == b[k]
  }

  /** One changed byte, wherever it is, changes the hash. */
  lemma {:induction false} OneByteChangesHash(h: nat, a: seq<byte>, b: seq<byte>, at: nat)
    requires h < TWO64 && OneByteOff(a, b, at)
    ensures HashBytes(h, a) != HashBytes(h, b)
    decreases |a|
  {
    if at == 0 {
      assert a[1..] == b[1..];
      HashByteDiffers(h, a[0], h, b[0]);
      HashBytesDiffer(HashByte(h, a[0]), HashByte(h, b[0]), a[1..]);
    } else {
      OneByteChangesHash(HashByte(h, a[0]), a[1..], b[1..], at - 1);
    }
  }

  lemma Twice(a: nat, b: nat)
    ensures a * (2 * b) == 2 * (a * b)
  {}

  /** Numbers below 2^k change only the k lowest bits. */
  lemma {:induction false} XorLowBits(high: nat, x: nat, y: nat, k: nat)
    requires x < Pow2(k) && y < Pow2(k)
    ensures Xor(high * Pow2(k) + x, y) == high * Pow2(k) + Xor(x, y)
    decreases k
  {
    if k == 0 {
      XorZero(high); XorZero(0);
    } else {
      var rest := high * Pow2(k - 1);
      Twice(high, Pow2(k - 1));
      XorLowBits(high, x / 2, y / 2, k - 1);
      XorStep(2 * rest + x, y);
      XorStep(x, y);
    }
  }

  lemma LetterOntoLow(low: nat, letter: nat)
    requires low == 0x25 && letter == 0x61
    ensures Xor(low, letter) == 0x44
  {}

  lemma LetterOntoBasis(basis: nat, high: nat, low: nat, letter: nat, k: nat)
    requires basis == 0x100 * high + low && low == 0x25 && letter == 0x61 && k == 8
    ensures Xor(basis, letter) == 0x100 * high + 0x44
  {
    assert Pow2(k) == 0x100;
    XorLowBits(high, low, letter, k);
    LetterOntoLow(low, letter);
  }

  lemma HashOfOneByte(h: nat, b: byte)
    ensures HashBytes(h, [b]) == HashByte(h, b)
  {
    assert [b][1..] == [];
  }

  lemma HashOfLetter(basis: nat, high: nat, letter: byte)
    requires high == 0xcbf29ce4842223 && basis == 0x100 * high + 0x25 && letter == 0x61
    ensures HashBytes(basis, [letter]) == 0xaf63dc4c8601ec8c
  {
    LetterOntoBasis(basis, high, 0x25, letter, 8);
    HashOfOneByte(basis, letter);
  }

  /** The published hash of the one-letter text "a" fixes basis and prime. */
  lemma HashOfLetterA(text: seq<scalar>)
    requires |text| == 1 && text[0] == 0x61
    ensures TextHash(text) == 0xaf63dc4c8601ec8c
  {
    var high := FNV_BASIS / 0x100;
    HashOfLetter(FNV_BASIS, high, text[0]);
    assert text[1..] == [] && Utf8Text(text) == [text[0]];
  }

  method ComputeTextHash(text: seq<scalar>) returns (hash: nat)
    ensures hash == TextHash(text)
  {
    hash := ContinueHash(FNV_BASIS, Utf8Text(text));
  }

  function FirstZero(block: seq<unit16>): Option<nat> {
    if block == [] then None
    else if block[0] == 0 then Some(0)
    else match FirstZero(block[1..]) case None => None case Some(n) => Some(n + 1)
  }

  lemma {:induction false} FirstZeroAt(head: seq<unit16>, rest: seq<unit16>)
    requires 0 !in head
    ensures FirstZero(head + [0] + rest) == Some(|head|)
    ensures FirstZero(head) == None
  {
    var block := head + [0] + rest;
    if head == [] {
      assert block[0] == 0;
    } else {
      assert head[0] in head && forall u :: u in head[1..] ==> u in head;
      assert block[1..] == head[1..] + [0] + rest;
      FirstZeroAt(head[1..], rest);
    }
  }

  lemma {:induction false} FirstZeroBound(block: seq<unit16>)
    ensures FirstZero(block).Some? ==> FirstZero(block).value < |block|
  {
    if block != [] { FirstZeroBound(block[1..]); }
  }

  /** The hash of the text in a clipboard block; none without a terminating zero. */
  function BlockHash(block: seq<unit16>): Option<nat> {
    FirstZeroBound(block);
    match FirstZero(block)
    case None => None
    case Some(n) => Some(TextHash(DecodeUtf16(block[..n])))
  }

  method TextLength(block: seq<unit16>) returns (len: Option<nat>)
    ensures len == FirstZero(block)
  {
    var i := 0;
    while i < |block| && block[i] != 0
      invariant i <= |block|
      invariant FirstZero(block) == match FirstZero(block[i..]) case None => None case Some(n) => Some(n + i)
    {
      assert block[i..][1..] == block[i + 1..];
      i := i + 1;
    }
    len := if i == |block| then None else Some(i);
  }

  method ContinueHash(h: nat, bytes: seq<byte>) returns (hash: nat)
    ensures hash == HashBytes(h, bytes)
  {
    hash := h;
    for k := 0 to |bytes|
      invariant HashBytes(hash, bytes[k..]) == HashBytes(h, bytes)
    {
      assert bytes[k..][1..] == bytes[k + 1..];
      hash := Xor(hash, bytes[k]);
      hash := hash * FNV_PRIME % TWO64;
    }
  }

  /** The hash of the block now on the clipboard, decoded and rehashed character by character. */
  method WindowsClipboardHash(block: seq<unit16>) returns (hash: Option<nat>)
    ensures hash == BlockHash(block)
  {
    FirstZeroBound(block);
    var len := TextLength(block);
    if len.None? { return None; }
    var units := block[..len.value];
    var h := FNV_BASIS;
    var i := 0;
    ghost var whole := TextHash(DecodeUtf16(units));
    assert units[0..] == units;
    while i < |units|
      invariant i <= |units|
      invariant HashBytes(h, Utf8Text(DecodeUtf16(units[i..]))) == whole
    {
      var ch, width := FirstChar(units[i..]), FirstWidth(units[i..]);
      assert units[i..][width..] == units[i + width..];
      var utf8 := Utf8(ch);
      ghost var rest := Utf8Text(DecodeUtf16(units[i + width..]));
      assert Utf8Text(DecodeUtf16(units[i..])) == utf8 + rest;
      HashConcat(h, utf8, rest);
      h := ContinueHash(h, utf8);
      i := i + width;
    }
    hash := Some(h);
  }

  /** A block written for a text: its UTF-16 units, a terminating zero, and whatever else the allocation holds. */
  function BlockOf(text: seq<scalar>, trailing: seq<unit16>): seq<unit16> {
    Utf16Text(text) + [0] + trailing
  }

  lemma BlockSplits(text: seq<scalar>, trailing: seq<unit16>) returns (rest: seq<unit16>)
    ensures BlockOf(text, trailing) == Utf16Text(BeforeNul(text)) + [0] + rest
  {
    var p := BeforeNul(text);
    rest := trailing;
    if |p| < |text| {
      var after := text[|p| + 1..];
      assert text == p + ([0] + after);
      Utf16Concat(p, [0] + after);
      assert ([0] + after)[1..] == after;
      assert Utf16Text([0] + after) == [0] + Utf16Text(after);
      rest := Utf16Text(after) + [0] + trailing;
    } else {
      assert text == p;
    }
  }

  /** Rehashing the UTF-16 block of any text gives the hash of the text up to its first U+0000. */
  lemma BlockHashOfText(text: seq<scalar>, trailing: seq<unit16>)
    ensures BlockHash(BlockOf(text, trailing)) == Some(TextHash(BeforeNul(text)))
  {
    var p := BeforeNul(text);
    var head := Utf16Text(p);
    var rest := BlockSplits(text, trailing);
    Utf16HasNoZero(p);
    DecodeInvertsUtf16(p);
    FirstZeroAt(head, rest);
    assert (head + [0] + rest)[..|head|] == head;
  }

  /** A text without U+0000 has one hash, whether taken from its UTF-8 bytes or from the clipboard block. */
  lemma HashesAgree(text: seq<scalar>, trailing: seq<unit16>)
    requires 0 !in text
    ensures BlockHash(BlockOf(text, trailing)) == Some(TextHash(text))
  {
    BlockHashOfText(text, trailing);
  }

  /** A text with U+0000 can break the agreement: the text of that one character does. */
  lemma NulBreaksAgreement(text: seq<scalar>, trailing: seq<unit16>)
    requires text == [0]
    ensures BlockHash(BlockOf(text, trailing)) != Some(TextHash(text))
  {
    BlockHashOfText(text, trailing);
    HashOfNul(FNV_BASIS, text);
  }

  lemma HashOfNul(h: nat, text: seq<scalar>)
    requires text == [0]
    ensures HashBytes(h, Utf8Text(text)) == h * FNV_PRIME % TWO64
  {
    assert text[1..] == [];
    assert Utf8Text(text) == [0];
    XorZero(h);
    assert [0][1..] == [];
  }

  // ---- Ownership

  /** A copy this program made and may clear: its transaction and the hash of its text. */
  datatype Tracked = Tracked(tx: nat, hash: nat)

  /** What the system clipboard holds: no readable text, or a block of memory. */
  type Content = Option<seq<unit16>>

  /** How far a write to the system clipboard gets: it is busy, the emptying fails, it is left empty, or the text
      is stored with the rest of its allocation. */
  datatype WriteOutcome = Busy | NotEmptied | LeftEmpty | Stored(trailing: seq<unit16>)

  /** How far a comparing clear gets. */
  datatype ClearOutcome = CannotOpen | CannotEmpty | CanEmpty

  /** The process: transaction counter, tracked copy, clipboard content, and timers still asleep. */
  datatype State = State(counter: nat, active: Option<Tracked>, content: Content, timers: set<Tracked>)

  predicate Matches(content: Content, hash: nat) {
    content.Some? && BlockHash(content.value) == Some(hash)
  }

  /** The content after a defended write, and whether the write succeeded. */
  function DefendedWrite(content: Content, text: seq<scalar>, os: WriteOutcome): (Content, bool) {
    match os
    case Busy => (content, false)
    case NotEmptied => (content, false)
    case LeftEmpty => (None, false)
    case Stored(trailing) => (Some(BlockOf(text, trailing)), true)
  }

  /** A plain write reports success whenever the clipboard opens. */
  function PlainWrite(content: Content, text: seq<scalar>, os: WriteOutcome): (Content, bool) {
    match os
    case Busy => (content, false)
    case NotEmptied => (content, true)
    case LeftEmpty => (None, true)
    case Stored(trailing) => (Some(BlockOf(text, trailing)), true)
  }

  function AfterCopy(s: State, text: seq<scalar>, sensitive: bool, secs: Option<nat>, os: WriteOutcome): (State, bool) {
    var (content, ok) := if sensitive then DefendedWrite(s.content, text, os) else PlainWrite(s.content, text, os);
    var written := s.(counter := s.counter + 1, content := content);
    if !ok then (written, false)
    else if !sensitive then (written.(active := None), true)
    else
      var mine := Tracked(s.counter, TextHash(text));
      var timers := if secs.Some? && secs.value > 0 then s.timers + {mine} else s.timers;
      (written.(active := Some(mine), timers := timers), true)
  }

  /** The content after a comparing clear, and whether it succeeded. */
  function MatchingClear(content: Content, hash: nat, os: ClearOutcome): (Content, bool) {
    if os.CannotOpen? then (content, false)
    else if !Matches(content, hash) then (content, true)
    else if os.CannotEmpty? then (content, false)
    else (None, true)
  }

  function AfterClear(s: State, expected: Option<Tracked>, os: ClearOutcome): (State, bool) {
    if s.active.None? then (s, true)
    else if expected.Some? && expected.value != s.active.value then (s, true)
    else
      var (content, ok) := MatchingClear(s.content, s.active.value.hash, os);
      if ok then (s.(active := None, content := content), true) else (s.(content := content), false)
  }

  /** The running program: a global counter, a mutex-held tracked copy, sleeping timers, and the system clipboard,
      which other programs write as well. */
  class Desktop {
    var counter: nat
    var active: Option<Tracked>
    var content: Content
    var timers: set<Tracked>

    function View(): State
      reads this
    {
      State(counter, active, content, timers)
    }

    constructor (content: Content)
      ensures View() == State(1, None, content, {})
    {
      this.counter := 1;
      this.active := None;
      this.content := content;
      this.timers := {};
    }

    method WriteDefended(text: seq<scalar>, os: WriteOutcome) returns (ok: bool)
      modifies this`content
      ensures (content, ok) == DefendedWrite(old(content), text, os)
    {
      if os.Busy? || os.NotEmptied? { return false; }
      content := None;
      if os.LeftEmpty? { return false; }
      content := Some(BlockOf(text, os.trailing));
      ok := true;
    }

    method WritePlain(text: seq<scalar>, os: WriteOutcome) returns (ok: bool)
      modifies this`content
      ensures (content, ok) == PlainWrite(old(content), text, os)
    {
      if os.Busy? { return false; }
      if !os.NotEmptied? { content := None; }
      if os.Stored? { content := Some(BlockOf(text, os.trailing)); }
      ok := true;
    }

    method Copy(text: seq<scalar>, sensitive: bool, secs: Option<nat>, os: WriteOutcome) returns (ok: bool)
      modifies this
      ensures (View(), ok) == AfterCopy(old(View()), text, sensitive, secs, os)
    {
      var tx := counter;
      counter := counter + 1;
      var hash := ComputeTextHash(text);
      if sensitive {
        ok := WriteDefended(text, os);
      } else {
        ok := WritePlain(text, os);
      }
      if !ok { return; }
      if sensitive {
        active := Some(Tracked(tx, hash));
        if secs.Some? && secs.value > 0 {
          timers := timers + {Tracked(tx, hash)};
        }
      } else {
        active := None;
      }
    }

    /** Compares and empties under one lock of the system clipboard. */
    method ClearIfMatching(hash: nat, os: ClearOutcome) returns (ok: bool)
      modifies this`content
      ensures (content, ok) == MatchingClear(old(content), hash, os)
    {
      if os.CannotOpen? { return false; }
      if content.Some? {
        var current := WindowsClipboardHash(content.value);
        if current == Some(hash) {
          if os.CannotEmpty? { return false; }
          content := None;
        }
      }
      ok := true;
    }

    method ClearOwned(expected: Option<Tracked>, os: ClearOutcome) returns (ok: bool)
      modifies this`active, this`content
      ensures (View(), ok) == AfterClear(old(View()), expected, os)
    {
      if active.None? { return true; }
      var current := active.value;
      if expected.Some? && expected.value != current { return true; }
      ok := ClearIfMatching(current.hash, os);
      if !ok { return; }
      active := None;
    }

    /** A timer wakes up and asks for its own copy to be cleared. */
    method Wake(timer: Tracked, os: ClearOutcome)
      modifies this
      ensures View() == AfterClear(old(View()), Some(timer), os).0.(timers := old(timers) - {timer})
    {
      var _ := ClearOwned(Some(timer), os);
      timers := timers - {timer};
    }
  }

  // ---- Runs

  datatype Event =
    | Copied(text: seq<scalar>, sensitive: bool, secs: Option<nat>, write: WriteOutcome)
    | Cleared(clear: ClearOutcome)
    | Woke(timer: Tracked, clear: ClearOutcome)
    | Foreign(written: Content)

  /** A state with what a history book would add: the transaction and the text of the last successful copy. */
  datatype Book = Book(state: State, last: nat, text: seq<scalar>)

  /** A timer wakes only when it sleeps; everything else can happen at any time. */
  predicate Enabled(b: Book, e: Event) {
    e.Woke? ==> e.timer in b.state.timers
  }

  function Next(b: Book, e: Event): Book {
    var s := b.state;
    match e
    case Copied(text, sensitive, secs, os) =>
      var (s', ok) := AfterCopy(s, text, sensitive, secs, os);
      if ok then Book(s', s.counter, text) else b.(state := s')
    case Cleared(os) => b.(state := AfterClear(s, None, os).0)
    case Woke(timer, os) => b.(state := AfterClear(s, Some(timer), os).0.(timers := s.timers - {timer}))
    case Foreign(written) => b.(state := s.(content := written))
  }

  /** The books reached from a fresh start, with any content on the clipboard. */
  ghost predicate Reached(events: seq<Event>, b: Book)
    decreases |events|
  {
    if events == [] then
      exists content :: b == Book(State(1, None, content, {}), 0, [])
    else
      var k := |events| - 1;
      exists a :: Reached(events[..k], a) && Enabled(a, events[k]) && b == Next(a, events[k])
  }

  /** What every run keeps: transactions are below the counter, timers belong to copies up to the last, and the
      tracked copy is the last successful one. */
  ghost predicate Inv(b: Book) {
    && b.last < b.state.counter
    && (forall t :: t in b.state.timers ==> t.tx <= b.last)
    && (b.state.active.Some? ==> b.state.active.value == Tracked(b.last, TextHash(b.text)))
    && (forall t :: t in b.state.timers && b.state.active.Some? && t.tx == b.last ==> t == b.state.active.value)
  }

  lemma StepKeepsInv(a: Book, e: Event)
    requires Inv(a) && Enabled(a, e)
    ensures Inv(Next(a, e))
  {
    match e
    case Copied(text, sensitive, secs, os) =>
    case Cleared(os) =>
    case Woke(timer, os) =>
    case Foreign(written) =>
  }

  lemma {:induction false} RunsKeepInv(events: seq<Event>, b: Book)
    requires Reached(events, b)
    ensures Inv(b)
    decreases |events|
  {
    if events != [] {
      var k := |events| - 1;
      var a :| Reached(events[..k], a) && Enabled(a, events[k]) && b == Next(a, events[k]);
      RunsKeepInv(events[..k], a);
      StepKeepsInv(a, events[k]);
    }
  }

  /** The timer of an older copy changes neither the tracked copy nor the clipboard. */
  lemma OldTimersChangeNothing(events: seq<Event>, b: Book, timer: Tracked, os: ClearOutcome)
    requires Reached(events, b) && timer in b.state.timers && timer.tx != b.last
    ensures Next(b, Woke(timer, os)).state == b.state.(timers := b.state.timers - {timer})
  {
    RunsKeepInv(events, b);
  }

  /** Whether a clear, explicit or timed, is about the copy now tracked. */
  predicate Addresses(b: Book, e: Event) {
    b.state.active.Some? && (e.Cleared? || (e.Woke? && e.timer.tx == b.last))
  }

  /** Over every run, a clear empties the clipboard exactly when a copy is tracked, the clear is about that copy,
      the content hashes like the text of the last successful copy, and the system lets it. It stops tracking
      exactly when it was about the tracked copy and did not fail. */
  lemma ClearsExactlyOwnedText(events: seq<Event>, b: Book, e: Event)
    requires Reached(events, b) && Enabled(b, e) && (e.Cleared? || e.Woke?)
    ensures var s, s' := b.state, Next(b, e).state;
      var mine := Matches(s.content, TextHash(b.text));
      var failed := e.clear.CannotOpen? || (mine && e.clear.CannotEmpty?);
      && (s'.content == if Addresses(b, e) && mine && !failed then None else s.content)
      && (s'.active == if Addresses(b, e) && !failed then None else s.active)
  {
    RunsKeepInv(events, b);
  }

  /** The clipboard holds a text when its block starts with the text's units and a terminating zero. */
  ghost predicate Holds(content: Content, text: seq<scalar>) {
    exists trailing :: content == Some(BlockOf(text, trailing))
  }

  lemma HeldTextMatches(content: Content, text: seq<scalar>)
    requires Holds(content, text) && 0 !in text
    ensures Matches(content, TextHash(text))
  {
    var trailing :| content == Some(BlockOf(text, trailing));
    HashesAgree(text, trailing);
  }

  /** After a successful clear of the tracked copy the clipboard does not hold its text, whatever happened
      between the copy and the clear. */
  lemma ClearedTextIsGone(events: seq<Event>, b: Book, e: Event)
    requires Reached(events, b) && Enabled(b, e) && Addresses(b, e) && 0 !in b.text
    requires Next(b, e).state.active == None
    ensures !Holds(Next(b, e).state.content, b.text)
  {
    ClearsExactlyOwnedText(events, b, e);
    if Holds(Next(b, e).state.content, b.text) { HeldTextMatches(Next(b, e).state.content, b.text); }
  }

  /** While the clipboard holds the tracked text, its own timer finds it and empties the clipboard. */
  lemma TimerFindsItsText(events: seq<Event>, b: Book, timer: Tracked)
    requires Reached(events, b) && timer in b.state.timers && timer.tx == b.last && b.state.active.Some?
    requires Holds(b.state.content, b.text) && 0 !in b.text
    ensures Next(b, Woke(timer, CanEmpty)).state.content == None
  {
    ClearsExactlyOwnedText(events, b, Woke(timer, CanEmpty));
    HeldTextMatches(b.state.content, b.text);
  }

  /** Over every run, a text of another program that differs from the tracked one in a single byte of its UTF-8
      form stays on the clipboard, whatever clear comes. */
  lemma ForeignTextStays(events: seq<Event>, b: Book, e: Event, foreign: seq<scalar>, at: nat)
    requires Reached(events, b) && Enabled(b, e) && (e.Cleared? || e.Woke?)
    requires Holds(b.state.content, foreign) && 0 !in foreign
    requires OneByteOff(Utf8Text(foreign), Utf8Text(b.text), at)
    ensures Next(b, e).state.content == b.state.content
  {
    ClearsExactlyOwnedText(events, b, e);
    OneByteChangesHash(FNV_BASIS, Utf8Text(foreign), Utf8Text(b.text), at);
    HeldTextMatches(b.state.content, foreign);
  }

  // ---- Copies

  /** A defended copy succeeds exactly when its text is stored, and then the clipboard holds it; a plain one
      succeeds exactly when the clipboard opens. A copy that fails keeps the tracked copy and starts no timer. */
  lemma CopySucceedsIff(s: State, text: seq<scalar>, sensitive: bool, secs: Option<nat>, os: WriteOutcome)
    ensures var (after, ok) := AfterCopy(s, text, sensitive, secs, os);
      && (ok <==> if sensitive then os.Stored? else !os.Busy?)
      && (os.Stored? ==> Holds(after.content, text))
      && (os.Busy? || os.NotEmptied? ==> after.content == s.content)
      && (os.LeftEmpty? ==> after.content == None)
      && (!ok ==> after.active == s.active && after.timers == s.timers)
  {
    if os.Stored? {
      var (after, ok) := AfterCopy(s, text, sensitive, secs, os);
      assert after.content == Some(BlockOf(text, os.trailing));
    }
  }

  /** A text copied as not sensitive stays until something else is written: no clear, on request or timed,
      empties the clipboard. */
  lemma PlainTextStays(b: Book, text: seq<scalar>, secs: Option<nat>, os: WriteOutcome, e: Event)
    requires !os.Busy? && (e.Cleared? || e.Woke?)
    ensures var copied := Next(b, Copied(text, false, secs, os)); Next(copied, e).state.content == copied.state.content
  {}

  /** A successful sensitive copy with a delay leaves a timer of its own asleep, and one without leaves none. */
  lemma CopyStartsItsTimerIff(b: Book, text: seq<scalar>, secs: Option<nat>, trailing: seq<unit16>)
    ensures var copied := Next(b, Copied(text, true, secs, Stored(trailing))).state;
      && copied.active.Some?
      && (copied.timers == b.state.timers + if secs.Some? && secs.value > 0 then {copied.active.value} else {})
  {}

  /** Once asleep, a timer sleeps on until it wakes, whatever else happens. */
  lemma TimerSleepsUntilItWakes(b: Book, e: Event, timer: Tracked)
    requires Enabled(b, e) && timer in b.state.timers
    ensures timer in Next(b, e).state.timers <==> !(e.Woke? && e.timer == timer)
  {}

  /** Over every run, while the clipboard holds the tracked text, a clear of that copy that does not fail, by its
      timer or on request, ends the tracking; it empties the clipboard exactly when the hash of the text is the
      hash of the part before its first U+0000, and otherwise the text remains. */
  lemma HeldTextIsClearedIff(events: seq<Event>, b: Book, e: Event)
    requires Reached(events, b) && Enabled(b, e) && Addresses(b, e) && e.clear.CanEmpty?
    requires Holds(b.state.content, b.text)
    ensures var s' := Next(b, e).state;
      && s'.active == None
      && s'.content == (if TextHash(BeforeNul(b.text)) == TextHash(b.text) then None else b.state.content)
  {
    ClearsExactlyOwnedText(events, b, e);
    var trailing :| b.state.content == Some(BlockOf(b.text, trailing));
    BlockHashOfText(b.text, trailing);
  }

  /** A copy cleared at once, with nothing in between, is gone exactly when the hash of its text is the hash of
      the part before its first U+0000; without that character, always. Tracking ends either way. */
  lemma CopyThenClear(b: Book, text: seq<scalar>, secs: Option<nat>, trailing: seq<unit16>)
    ensures var after := Next(Next(b, Copied(text, true, secs, Stored(trailing))), Cleared(CanEmpty)).state;
      && after.active == None
      && (after.content == None <==> TextHash(BeforeNul(text)) == TextHash(text))
      && (0 !in text ==> after.content == None)
  {
    CopyTracks(b, text, secs, trailing);
    ClearOfCopy(Next(b, Copied(text, true, secs, Stored(trailing))).state, text, trailing);
  }

  lemma CopyTracks(b: Book, text: seq<scalar>, secs: Option<nat>, trailing: seq<unit16>)
    ensures var copied := Next(b, Copied(text, true, secs, Stored(trailing))).state;
      && copied.content == Some(BlockOf(text, trailing))
      && copied.active == Some(Tracked(b.state.counter, TextHash(text))) && copied.counter == b.state.counter + 1
  {}

  lemma ClearOfCopy(s: State, text: seq<scalar>, trailing: seq<unit16>)
    requires s.content == Some(BlockOf(text, trailing)) && s.active.Some? && s.active.value.hash == TextHash(text)
    ensures var after := AfterClear(s, None, CanEmpty).0;
      after.active == None && (after.content == None <==> TextHash(BeforeNul(text)) == TextHash(text))
  {
    BlockHashOfText(text, trailing);
  }
}
