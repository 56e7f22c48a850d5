/** The dialogue that reviews the changes of a synchronization, over every script of answers. */
module ReviewedSync {
  import opened Results
  import opened Text

  const PASSWORD := "encrypted_password"
  const CANCELLED := "Synchronization cancelled"

  /** A change under review; the proposal, where there is one, is left to the merge engine. */
  datatype Change = Change(key: nat, entry: nat, field: string, proposed: bool, canKeepBoth: bool, canEdit: bool)

  datatype Choice = Local | Remote | Both | Edited

  datatype Decision = Decision(key: nat, choice: Choice, text: Option<string>)

  /** Showing both sides of a change fails with a message, or not. */
  type Inspect = Change -> Option<string>

  predicate IsPassword(c: Change) { c.field == PASSWORD }

  // ---- The order of the changes

  predicate Before(a: Change, b: Change) {
    a.entry < b.entry || (a.entry == b.entry && (IsPassword(a) || !IsPassword(b)))
  }

  /** Puts a change behind all that may stand before it. */
  function Insert(sorted: seq<Change>, c: Change): seq<Change> {
    if sorted == [] || Before(sorted[|sorted| - 1], c) then sorted + [c]
    else Insert(sorted[..|sorted| - 1], c) + [sorted[|sorted| - 1]]
  }

  /** The stable sort by entry, with the password in front of the entry's other fields. */
  function Sort(changes: seq<Change>): seq<Change> {
    if changes == [] then [] else Insert(Sort(changes[..|changes| - 1]), changes[|changes| - 1])
  }

  predicate IsSorted(s: seq<Change>) {
    forall i, j :: 0 <= i < j < |s| ==> Before(s[i], s[j])
  }

  lemma SortedBefore(s: seq<Change>, last: Change)
    requires IsSorted(s) && forall x :: x in s ==> Before(x, last)
    ensures IsSorted(s + [last])
  {}

  lemma {:induction false} InsertSorts(sorted: seq<Change>, c: Change)
    requires IsSorted(sorted)
    ensures IsSorted(Insert(sorted, c)) && multiset(Insert(sorted, c)) == multiset(sorted) + multiset{c}
  {
    if sorted != [] {
      var front, last := sorted[..|sorted| - 1], sorted[|sorted| - 1];
      assert sorted == front + [last];
      if !Before(last, c) {
        InsertSorts(front, c);
        var s := Insert(front, c);
        forall x | x in s ensures Before(x, last) {
          assert x in multiset(s);
          if x in front {
            var k :| 0 <= k < |front| && front[k] == x;
            assert sorted[k] == x;
          }
        }
        SortedBefore(s, last);
      }
    }
  }

  lemma {:induction false} SortSorts(changes: seq<Change>)
    ensures IsSorted(Sort(changes)) && multiset(Sort(changes)) == multiset(changes)
  {
    if changes != [] {
      var front := changes[..|changes| - 1];
      SortSorts(front);
      InsertSorts(Sort(front), changes[|changes| - 1]);
      assert changes == front + [changes[|changes| - 1]];
    }
  }

  /** In the sorted changes entries come in rising order, and the password of an entry before its other fields. */
  lemma SortOrders(changes: seq<Change>, i: nat, j: nat)
    requires i < j < |Sort(changes)|
    ensures var a, b := Sort(changes)[i], Sort(changes)[j];
            a.entry < b.entry || (a.entry == b.entry && (b.field == PASSWORD ==> a.field == PASSWORD))
  {
    SortSorts(changes);
  }

  /** The changes that rank with a given one. */
  function Peers(s: seq<Change>, c: Change): seq<Change> {
    if s == [] then []
    else Peers(s[..|s| - 1], c) + if Ties(s[|s| - 1], c) then [s[|s| - 1]] else []
  }

  predicate Ties(a: Change, b: Change) { Before(a, b) && Before(b, a) }

  lemma PeersSnoc(s: seq<Change>, x: Change, c: Change)
    ensures Peers(s + [x], c) == Peers(s, c) + if Ties(x, c) then [x] else []
  {
    assert (s + [x])[..|s|] == s;
  }

  lemma {:induction false} InsertKeepsPeers(sorted: seq<Change>, x: Change, c: Change)
    ensures Peers(Insert(sorted, x), c) == Peers(sorted + [x], c)
  {
    if sorted != [] && !Before(sorted[|sorted| - 1], x) {
      var front, last := sorted[..|sorted| - 1], sorted[|sorted| - 1];
      InsertKeepsPeers(front, x, c);
      PeersSnoc(Insert(front, x), last, c);
      PeersSnoc(sorted, x, c);
      PeersSnoc(front, x, c);
    }
  }

  /** Changes that rank alike keep their order: the sort is the stable one. */
  lemma {:induction false} SortIsStable(changes: seq<Change>, c: Change)
    ensures Peers(Sort(changes), c) == Peers(changes, c)
  {
    if changes != [] {
      var front, last := changes[..|changes| - 1], changes[|changes| - 1];
      SortIsStable(front, c);
      InsertKeepsPeers(Sort(front), last, c);
      PeersSnoc(Sort(front), last, c);
    }
  }

  // ---- One change

  /** How the questions about one change end, and the answers left. */
  datatype Verdict = Stopped(message: string) | Accepted(rest: seq<string>)
                   | Decided(choice: Choice, text: Option<string>, rest: seq<string>)

  function Asked(c: Change, script: seq<string>, inspect: Inspect): Verdict
    decreases |script|
  {
    if script == [] then Stopped(CANCELLED) else
    var answer, rest := Trim(script[0]), script[1..];
    if answer == "l" then Decided(Local, None, rest)
    else if answer == "r" then Decided(Remote, None, rest)
    else if answer == "b" && c.canKeepBoth then Decided(Both, None, rest)
    else if answer == "e" && c.canEdit then
      if rest == [] then Stopped(CANCELLED) else Decided(Edited, Some(Trim(rest[0])), rest[1..])
    else if answer == "v" then
      match inspect(c) case Some(message) => Stopped(message) case None => Asked(c, rest, inspect)
    else if answer == "" && c.proposed then Accepted(rest)
    else if answer == "q" then Stopped(CANCELLED)
    else Asked(c, rest, inspect)
  }

  /** Reads an answer; nothing at the end of the input. */
  method Ask(script: seq<string>) returns (answer: Option<string>, rest: seq<string>)
    ensures if script == [] then answer == None && rest == []
            else answer == Some(Trim(script[0])) && rest == script[1..]
  {
    if script == [] {
      return None, [];
    }
    return Some(Trim(script[0])), script[1..];
  }

  method AskChange(c: Change, script: seq<string>, inspect: Inspect) returns (verdict: Verdict)
    ensures verdict == Asked(c, script, inspect)
  {
    var left := script;
    while true
      invariant Asked(c, left, inspect) == Asked(c, script, inspect)
      decreases |left|
    {
      var answer;
      answer, left := Ask(left);
      if answer.None? { return Stopped(CANCELLED); }
      var choice: Choice;
      if answer.value == "l" {
        choice := Local;
      } else if answer.value == "r" {
        choice := Remote;
      } else if answer.value == "b" && c.canKeepBoth {
        choice := Both;
      } else if answer.value == "e" && c.canEdit {
        choice := Edited;
      } else if answer.value == "v" {
        var failed := inspect(c);
        if failed.Some? { return Stopped(failed.value); }
        continue;
      } else if answer.value == "" && c.proposed {
        return Accepted(left);
      } else if answer.value == "q" {
        return Stopped(CANCELLED);
      } else {
        continue;
      }
      var text: Option<string> := None;
      if choice == Edited {
        text, left := Ask(left);
        if text.None? { return Stopped(CANCELLED); }
      }
      return Decided(choice, text, left);
    }
  }

  // ---- All changes

  /** A decision with the place of its change in the review. */
  datatype Ruling = Ruling(at: nat, choice: Choice, text: Option<string>)

  datatype Course = Halted(message: string) | Through(rulings: seq<Ruling>, rest: seq<string>, kept: set<nat>)

  predicate KeepsEntry(c: Change, choice: Choice) { choice == Both && IsPassword(c) }

  /** The review from place i on; the entries kept as both so far are passed over. */
  function Reviewed(cs: seq<Change>, i: nat, script: seq<string>, kept: set<nat>, inspect: Inspect): Course
    requires i <= |cs|
    decreases |cs| - i
  {
    if i == |cs| then Through([], script, kept)
    else if cs[i].entry in kept then Reviewed(cs, i + 1, script, kept, inspect)
    else
      match Asked(cs[i], script, inspect)
      case Stopped(message) => Halted(message)
      case Accepted(rest) => Reviewed(cs, i + 1, rest, kept, inspect)
      case Decided(choice, text, rest) =>
        match Reviewed(cs, i + 1, rest, if KeepsEntry(cs[i], choice) then kept + {cs[i].entry} else kept, inspect)
        case Halted(message) => Halted(message)
        case Through(rulings, left, all) => Through([Ruling(i, choice, text)] + rulings, left, all)
  }

  function Decisions(cs: seq<Change>, rulings: seq<Ruling>): seq<Decision>
    requires forall k :: 0 <= k < |rulings| ==> rulings[k].at < |cs|
  {
    seq(|rulings|, k requires 0 <= k < |rulings| =>
      Decision(cs[rulings[k].at].key, rulings[k].choice, rulings[k].text))
  }

  /** What every review that gets through keeps: places in rising order, choices that were offered, and
      nothing decided about an entry after it was kept as both. */
  ghost predicate Orderly(cs: seq<Change>, i: nat, kept: set<nat>, course: Course) {
    course.Through? ==>
      && kept <= course.kept
      && (forall k :: 0 <= k < |course.rulings| ==> i <= course.rulings[k].at < |cs|)
      && (forall k, l :: 0 <= k < l < |course.rulings| ==> course.rulings[k].at < course.rulings[l].at)
      && (forall k :: 0 <= k < |course.rulings| ==> Offered(cs[course.rulings[k].at], course.rulings[k]))
      && (forall k :: 0 <= k < |course.rulings| ==> cs[course.rulings[k].at].entry !in kept)
      && (forall k, l :: (0 <= k < l < |course.rulings|
                          && KeepsEntry(cs[course.rulings[k].at], course.rulings[k].choice)) ==>
            cs[course.rulings[l].at].entry != cs[course.rulings[k].at].entry)
  }

  predicate Offered(c: Change, r: Ruling) {
    && (r.choice == Both ==> c.canKeepBoth) && (r.choice == Edited ==> c.canEdit)
    && (r.text.Some? <==> r.choice == Edited)
  }

  lemma {:induction false} AskedOffered(c: Change, script: seq<string>, inspect: Inspect, at: nat)
    ensures match Asked(c, script, inspect)
            case Decided(choice, text, rest) => Offered(c, Ruling(at, choice, text))
            case Accepted(_) => c.proposed
            case Stopped(_) => true
    decreases |script|
  {
    if script != [] { AskedOffered(c, script[1..], inspect, at); }
  }

  /** A decision in front of an orderly rest. */
  lemma OrderlyAfter(cs: seq<Change>, r: Ruling, kept: set<nat>, rest: Course)
    requires r.at < |cs| && cs[r.at].entry !in kept && Offered(cs[r.at], r) && rest.Through?
    requires Orderly(cs, r.at + 1, if KeepsEntry(cs[r.at], r.choice) then kept + {cs[r.at].entry} else kept, rest)
    ensures Orderly(cs, r.at, kept, Through([r] + rest.rulings, rest.rest, rest.kept))
  {}

  lemma {:induction false} ReviewIsOrderly(cs: seq<Change>, i: nat, script: seq<string>, kept: set<nat>,
                                           inspect: Inspect)
    requires i <= |cs|
    ensures Orderly(cs, i, kept, Reviewed(cs, i, script, kept, inspect))
    decreases |cs| - i
  {
    if i < |cs| {
      if cs[i].entry in kept {
        ReviewIsOrderly(cs, i + 1, script, kept, inspect);
      } else {
        AskedOffered(cs[i], script, inspect, i);
        match Asked(cs[i], script, inspect) {
          case Stopped(_) =>
          case Accepted(rest) => ReviewIsOrderly(cs, i + 1, rest, kept, inspect);
          case Decided(choice, text, rest) =>
            var more := if KeepsEntry(cs[i], choice) then kept + {cs[i].entry} else kept;
            ReviewIsOrderly(cs, i + 1, rest, more, inspect);
            var tail := Reviewed(cs, i + 1, rest, more, inspect);
            if tail.Through? { OrderlyAfter(cs, Ruling(i, choice, text), kept, tail); }
        }
      }
    }
  }

  predicate Ruled(rulings: seq<Ruling>, at: nat) {
    exists k :: 0 <= k < |rulings| && rulings[k].at == at
  }

  predicate KeptByRuling(cs: seq<Change>, rulings: seq<Ruling>, entry: nat) {
    exists k :: (&& 0 <= k < |rulings| && rulings[k].at < |cs| && cs[rulings[k].at].entry == entry
                 && KeepsEntry(cs[rulings[k].at], rulings[k].choice))
  }

  lemma RuledAfter(r: Ruling, rulings: seq<Ruling>, at: nat)
    ensures Ruled([r] + rulings, at) <==> r.at == at || Ruled(rulings, at)
  {
    if r.at == at { assert ([r] + rulings)[0].at == at; }
    if Ruled(rulings, at) {
      var k :| 0 <= k < |rulings| && rulings[k].at == at;
      assert ([r] + rulings)[k + 1].at == at;
    }
  }

  lemma KeptAfter(cs: seq<Change>, r: Ruling, rulings: seq<Ruling>, entry: nat)
    requires r.at < |cs|
    ensures KeptByRuling(cs, [r] + rulings, entry)
            <==> (cs[r.at].entry == entry && KeepsEntry(cs[r.at], r.choice)) || KeptByRuling(cs, rulings, entry)
  {
    var all := [r] + rulings;
    if cs[r.at].entry == entry && KeepsEntry(cs[r.at], r.choice) { assert all[0] == r; }
    if KeptByRuling(cs, rulings, entry) {
      var k :| (&& 0 <= k < |rulings| && rulings[k].at < |cs| && cs[rulings[k].at].entry == entry
                && KeepsEntry(cs[rulings[k].at], rulings[k].choice));
      assert all[k + 1] == rulings[k];
    }
  }

  /** The entries kept as both are those whose password change was ruled so. */
  lemma {:induction false} KeptIffRuled(cs: seq<Change>, i: nat, script: seq<string>, kept: set<nat>,
                                        inspect: Inspect, entry: nat)
    requires i <= |cs|
    ensures var course := Reviewed(cs, i, script, kept, inspect);
            course.Through? ==> (entry in course.kept <==> entry in kept || KeptByRuling(cs, course.rulings, entry))
    decreases |cs| - i
  {
    if i < |cs| {
      if cs[i].entry in kept {
        KeptIffRuled(cs, i + 1, script, kept, inspect, entry);
      } else {
        match Asked(cs[i], script, inspect) {
          case Stopped(_) =>
          case Accepted(rest) => KeptIffRuled(cs, i + 1, rest, kept, inspect, entry);
          case Decided(choice, text, rest) =>
            var more := if KeepsEntry(cs[i], choice) then kept + {cs[i].entry} else kept;
            KeptIffRuled(cs, i + 1, rest, more, inspect, entry);
            var tail := Reviewed(cs, i + 1, rest, more, inspect);
            if tail.Through? { KeptAfter(cs, Ruling(i, choice, text), tail.rulings, entry); }
        }
      }
    }
  }

  /** A change is left undecided only with a proposal, or as part of an entry kept as both. */
  lemma {:induction false} UndecidedIsSettled(cs: seq<Change>, i: nat, script: seq<string>, kept: set<nat>,
                                              inspect: Inspect, j: nat)
    requires i <= j < |cs|
    ensures var course := Reviewed(cs, i, script, kept, inspect);
            course.Through? ==> Ruled(course.rulings, j) || cs[j].proposed || cs[j].entry in course.kept
    decreases |cs| - i
  {
    ReviewIsOrderly(cs, i, script, kept, inspect);
    if cs[i].entry in kept {
      if i < j { UndecidedIsSettled(cs, i + 1, script, kept, inspect, j); }
    } else {
      AskedOffered(cs[i], script, inspect, i);
      match Asked(cs[i], script, inspect) {
        case Stopped(_) =>
        case Accepted(rest) => if i < j { UndecidedIsSettled(cs, i + 1, rest, kept, inspect, j); }
        case Decided(choice, text, rest) =>
          var more := if KeepsEntry(cs[i], choice) then kept + {cs[i].entry} else kept;
          if i < j { UndecidedIsSettled(cs, i + 1, rest, more, inspect, j); }
          var tail := Reviewed(cs, i + 1, rest, more, inspect);
          if tail.Through? { RuledAfter(Ruling(i, choice, text), tail.rulings, j); }
      }
    }
  }

  lemma RulingsInRange(cs: seq<Change>, script: seq<string>, inspect: Inspect)
    ensures var course := Reviewed(cs, 0, script, {}, inspect);
            course.Through? ==> forall k :: 0 <= k < |course.rulings| ==> course.rulings[k].at < |cs|
  {
    ReviewIsOrderly(cs, 0, script, {}, inspect);
  }

  /** The decisions handed on when the review is approved. */
  function Approved(changes: seq<Change>, script: seq<string>, inspect: Inspect): Result<seq<Decision>> {
    var cs := Sort(changes);
    RulingsInRange(cs, script, inspect);
    match Reviewed(cs, 0, script, {}, inspect)
    case Halted(message) => Err(message)
    case Through(rulings, rest, _) =>
      if cs != [] && (rest == [] || Trim(rest[0]) != "yes") then Err(CANCELLED)
      else Ok(Decisions(cs, rulings))
  }

  method ReviewChanges(changes: seq<Change>, script: seq<string>, inspect: Inspect)
      returns (result: Result<seq<Decision>>)
    ensures result == Approved(changes, script, inspect)
  {
    var cs := Sort(changes);
    ghost var whole := Reviewed(cs, 0, script, {}, inspect);
    RulingsInRange(cs, script, inspect);
    var left := script;
    var duplicated: set<nat> := {};
    var decisions: seq<Decision> := [];
    ghost var rulings: seq<Ruling> := [];
    for i := 0 to |cs|
      invariant whole == Behind(rulings, Reviewed(cs, i, left, duplicated, inspect))
      invariant forall k :: 0 <= k < |rulings| ==> rulings[k].at < |cs|
      invariant decisions == Decisions(cs, rulings)
    {
      if cs[i].entry in duplicated {
        continue;
      }
      var verdict := AskChange(cs[i], left, inspect);
      match verdict {
        case Stopped(message) => return Err(message);
        case Accepted(rest) => left := rest;
        case Decided(choice, text, rest) =>
          if choice == Both && cs[i].field == PASSWORD {
            duplicated := duplicated + {cs[i].entry};
          }
          decisions := decisions + [Decision(cs[i].key, choice, text)];
          BehindOne(rulings, Ruling(i, choice, text), Reviewed(cs, i + 1, rest, duplicated, inspect));
          rulings := rulings + [Ruling(i, choice, text)];
          left := rest;
      }
    }
    assert rulings + [] == rulings;
    if |cs| > 0 {
      var answer;
      answer, left := Ask(left);
      if answer != Some("yes") {
        return Err(CANCELLED);
      }
    }
    result := Ok(decisions);
  }

  /** A course with earlier rulings in front. */
  ghost function Behind(rulings: seq<Ruling>, course: Course): Course {
    match course case Halted(message) => course case Through(more, rest, kept) => Through(rulings + more, rest, kept)
  }

  lemma BehindOne(rulings: seq<Ruling>, r: Ruling, course: Course)
    ensures Behind(rulings + [r], course) == Behind(rulings, Behind([r], course))
  {
    if course.Through? { assert rulings + [r] + course.rulings == rulings + ([r] + course.rulings); }
  }

  // ---- Approval is explicit

  /** The answers behind those that settle a change are not looked at. */
  /** The answers after which the same question is asked once more. */
  predicate Repeats(c: Change, answer: string, inspect: Inspect) {
    && answer != "l" && answer != "r" && answer != "q"
    && !(answer == "b" && c.canKeepBoth) && !(answer == "e" && c.canEdit) && !(answer == "" && c.proposed)
    && (answer == "v" ==> inspect(c).None?)
  }

  lemma AskedAgain(c: Change, line: string, rest: seq<string>, inspect: Inspect)
    requires Repeats(c, Trim(line), inspect)
    ensures Asked(c, [line] + rest, inspect) == Asked(c, rest, inspect)
  {
    assert ([line] + rest)[1..] == rest;
  }

  /** The verdict of the used lines is that of the whole script, and leaves what stands behind them. */
  predicate ReadsOnly(c: Change, script: seq<string>, used: seq<string>, inspect: Inspect, other: seq<string>) {
    var again := Asked(c, used + other, inspect);
    match Asked(c, script, inspect)
    case Stopped(_) => true
    case Accepted(rest) => script == used + rest && again == Accepted(other)
    case Decided(choice, text, rest) => script == used + rest && again == Decided(choice, text, other)
  }

  lemma {:induction false} AskedReadsPrefix(c: Change, script: seq<string>, inspect: Inspect, other: seq<string>)
      returns (used: seq<string>)
    ensures ReadsOnly(c, script, used, inspect, other)
    decreases |script|
  {
    used := [];
    if script != [] && !Asked(c, script, inspect).Stopped? {
      var rest := script[1..];
      assert script == [script[0]] + rest;
      if Repeats(c, Trim(script[0]), inspect) {
        var more := AskedReadsPrefix(c, rest, inspect, other);
        used := [script[0]] + more;
        AskedAgain(c, script[0], rest, inspect);
        AskedAgain(c, script[0], more + other, inspect);
        assert used + other == [script[0]] + (more + other);
      } else {
        used := AnswerReadsPrefix(c, script, inspect, other);
      }
    }
  }

  lemma AnswerReadsPrefix(c: Change, script: seq<string>, inspect: Inspect, other: seq<string>)
      returns (used: seq<string>)
    requires script != [] && !Repeats(c, Trim(script[0]), inspect)
    ensures ReadsOnly(c, script, used, inspect, other)
  {
    var edits := Trim(script[0]) == "e" && |script| > 1;
    used := if edits then script[..2] else script[..1];
    assert (used + other)[1..] == (if edits then [script[1]] + other else other);
  }

  lemma {:induction false} ReviewReadsPrefix(cs: seq<Change>, i: nat, script: seq<string>, kept: set<nat>,
                                            inspect: Inspect, other: seq<string>) returns (used: seq<string>)
    requires i <= |cs|
    ensures match Reviewed(cs, i, script, kept, inspect)
            case Halted(_) => true
            case Through(rulings, rest, all) =>
              && script == used + rest
              && Reviewed(cs, i, used + other, kept, inspect) == Through(rulings, other, all)
    decreases |cs| - i
  {
    used := [];
    if i < |cs| {
      if cs[i].entry in kept {
        used := ReviewReadsPrefix(cs, i + 1, script, kept, inspect, other);
      } else {
        match Asked(cs[i], script, inspect) {
          case Stopped(_) =>
          case Accepted(rest) =>
            var more := ReviewReadsPrefix(cs, i + 1, rest, kept, inspect, other);
            var first := AskedReadsPrefix(cs[i], script, inspect, more + other);
            used := first + more;
            assert used + other == first + (more + other);
            if Reviewed(cs, i, script, kept, inspect).Through? { Regroup(first, more, rest); }
          case Decided(choice, text, rest) =>
            var next := if KeepsEntry(cs[i], choice) then kept + {cs[i].entry} else kept;
            var more := ReviewReadsPrefix(cs, i + 1, rest, next, inspect, other);
            var first := AskedReadsPrefix(cs[i], script, inspect, more + other);
            used := first + more;
            assert used + other == first + (more + other);
            if Reviewed(cs, i, script, kept, inspect).Through? { Regroup(first, more, rest); }
        }
      }
    }
  }

  lemma Regroup(first: seq<string>, more: seq<string>, rest: seq<string>)
    ensures more <= rest ==> first + rest == (first + more) + rest[|more|..]
  {}

  /** Changes are only ever decided after a final answer of yes, and what stands behind it is not read. */
  lemma ApprovalIsExplicit(changes: seq<Change>, script: seq<string>, inspect: Inspect, other: seq<string>)
      returns (used: seq<string>, yes: string, behind: seq<string>)
    requires Approved(changes, script, inspect).Ok? && changes != []
    ensures script == used + [yes] + behind && Trim(yes) == "yes"
    ensures Approved(changes, used + [yes] + other, inspect) == Approved(changes, script, inspect)
  {
    SortSorts(changes);
    var cs := Sort(changes);
    assert changes[0] in multiset(changes);
    var course := Reviewed(cs, 0, script, {}, inspect);
    yes, behind := course.rest[0], course.rest[1..];
    used := ReviewReadsPrefix(cs, 0, script, {}, inspect, [yes] + other);
    assert course.rest == [yes] + behind;
    assert used + ([yes] + other) == used + [yes] + other;
    assert used + ([yes] + behind) == used + [yes] + behind;
  }

  // ---- Every decision is the answer given

  /** The answer to the first line that does not lead to the same question again. */
  function Answered(c: Change, answer: string, rest: seq<string>, inspect: Inspect): Verdict
    requires !Repeats(c, answer, inspect)
  {
    match answer
    case "l" => Decided(Local, None, rest)
    case "r" => Decided(Remote, None, rest)
    case "b" => Decided(Both, None, rest)
    case "e" => if rest == [] then Stopped(CANCELLED) else Decided(Edited, Some(Trim(rest[0])), rest[1..])
    case "" => Accepted(rest)
    case "v" => Stopped(inspect(c).value)
    case _ => Stopped(CANCELLED)
  }

  /** The dialogue passes over the lines that repeat its question, and the next line decides; at the end of the
      input it is cancelled. */
  lemma {:induction false} FirstAnswerCounts(c: Change, script: seq<string>, inspect: Inspect) returns (n: nat)
    ensures n <= |script| && forall i :: 0 <= i < n ==> Repeats(c, Trim(script[i]), inspect)
    ensures n < |script| ==> !Repeats(c, Trim(script[n]), inspect)
    ensures Asked(c, script, inspect)
         == if n == |script| then Stopped(CANCELLED) else Answered(c, Trim(script[n]), script[n + 1..], inspect)
    decreases |script|
  {
    n := 0;
    if script != [] && Repeats(c, Trim(script[0]), inspect) {
      var m := FirstAnswerCounts(c, script[1..], inspect);
      AskedAgain(c, script[0], script[1..], inspect);
      assert script == [script[0]] + script[1..];
      forall i | 1 <= i <= m ensures Repeats(c, Trim(script[i]), inspect) { assert script[i] == script[1..][i - 1]; }
      n := m + 1;
    }
  }

  /** The line at this place, without white space around it, is the letter of the choice, and the text of an edit is
      the line behind it. */
  predicate IsAnswer(script: seq<string>, n: nat, choice: Choice, text: Option<string>) {
    && n < |script|
    && Trim(script[n]) == (match choice case Local => "l" case Remote => "r" case Both => "b" case Edited => "e")
    && (choice.Edited? ==> n + 1 < |script| && text == Some(Trim(script[n + 1])))
  }

  /** The lines used for a decided change end with the answer, and an edit's text. */
  lemma DecidedByAnswer(c: Change, script: seq<string>, inspect: Inspect) returns (n: nat)
    requires Asked(c, script, inspect).Decided?
    ensures var v := Asked(c, script, inspect);
            IsAnswer(script, n, v.choice, v.text) && v.rest == script[if v.choice.Edited? then n + 2 else n + 1..]
    ensures forall i :: 0 <= i < n ==> Repeats(c, Trim(script[i]), inspect)
  {
    n := FirstAnswerCounts(c, script, inspect);
    assert script[n + 1..] != [] ==> script[n + 1..][0] == script[n + 1] && script[n + 1..][1..] == script[n + 2..];
  }

  /** The lines asked for in one question: where it begins, and the answer that ends it. */
  datatype Question = Question(start: nat, answer: nat)

  /** The answer stands behind lines that only repeat the question about this change. */
  predicate Answers(c: Change, script: seq<string>, q: Question, choice: Choice, text: Option<string>,
                    inspect: Inspect)
  {
    && q.start <= q.answer && IsAnswer(script, q.answer, choice, text)
    && forall i :: q.start <= i < q.answer ==> Repeats(c, Trim(script[i]), inspect)
  }

  /** The questions that the decisions of a review answer, one behind the other. */
  predicate AnsweredAt(cs: seq<Change>, script: seq<string>, rulings: seq<Ruling>, qs: seq<Question>,
                       inspect: Inspect)
  {
    && |qs| == |rulings|
    && (forall k :: 0 <= k < |qs| ==>
          && rulings[k].at < |cs|
          && Answers(cs[rulings[k].at], script, qs[k], rulings[k].choice, rulings[k].text, inspect))
    && InOrder(qs)
  }

  predicate InOrder(qs: seq<Question>) { forall k, l :: 0 <= k < l < |qs| ==> qs[k].answer < qs[l].start }

  lemma OrderedCons(q: Question, qs: seq<Question>)
    requires InOrder(qs) && forall k :: 0 <= k < |qs| ==> q.answer < qs[k].start
    ensures InOrder([q] + qs)
  {}

  function Later(qs: seq<Question>, skip: nat): seq<Question> {
    seq(|qs|, k requires 0 <= k < |qs| => Question(qs[k].start + skip, qs[k].answer + skip))
  }

  lemma AnswersLater(c: Change, script: seq<string>, skip: nat, q: Question, choice: Choice, text: Option<string>,
                     inspect: Inspect)
    requires skip <= |script| && Answers(c, script[skip..], q, choice, text, inspect)
    ensures Answers(c, script, Question(q.start + skip, q.answer + skip), choice, text, inspect)
  {
    forall i | q.start + skip <= i < q.answer + skip ensures Repeats(c, Trim(script[i]), inspect) {
      assert script[i] == script[skip..][i - skip];
    }
  }

  lemma AnsweredLater(cs: seq<Change>, script: seq<string>, skip: nat, rulings: seq<Ruling>, qs: seq<Question>,
                      inspect: Inspect)
    requires skip <= |script| && AnsweredAt(cs, script[skip..], rulings, qs, inspect)
    ensures AnsweredAt(cs, script, rulings, Later(qs, skip), inspect)
  {
    forall k | 0 <= k < |qs|
      ensures Answers(cs[rulings[k].at], script, Later(qs, skip)[k], rulings[k].choice, rulings[k].text, inspect)
    {
      AnswersLater(cs[rulings[k].at], script, skip, qs[k], rulings[k].choice, rulings[k].text, inspect);
    }
  }

  lemma AnsweredCons(cs: seq<Change>, script: seq<string>, r: Ruling, q: Question, rulings: seq<Ruling>,
                     qs: seq<Question>, inspect: Inspect)
    requires r.at < |cs| && Answers(cs[r.at], script, q, r.choice, r.text, inspect)
    requires AnsweredAt(cs, script, rulings, qs, inspect) && forall k :: 0 <= k < |qs| ==> q.answer < qs[k].start
    ensures AnsweredAt(cs, script, [r] + rulings, [q] + qs, inspect)
  {
    var (rs, all) := ([r] + rulings, [q] + qs);
    forall k | 0 <= k < |all|
      ensures rs[k].at < |cs| && Answers(cs[rs[k].at], script, all[k], rs[k].choice, rs[k].text, inspect)
    {
      if k > 0 { assert rs[k] == rulings[k - 1] && all[k] == qs[k - 1]; }
    }
    OrderedCons(q, qs);
  }

  lemma AnsweredFirst(cs: seq<Change>, script: seq<string>, r: Ruling, n: nat, skip: nat, rulings: seq<Ruling>,
                      qs: seq<Question>, inspect: Inspect)
    requires r.at < |cs| && Answers(cs[r.at], script, Question(0, n), r.choice, r.text, inspect)
    requires n < skip <= |script| && AnsweredAt(cs, script[skip..], rulings, qs, inspect)
    ensures AnsweredAt(cs, script, [r] + rulings, [Question(0, n)] + Later(qs, skip), inspect)
  {
    AnsweredLater(cs, script, skip, rulings, qs, inspect);
    AnsweredCons(cs, script, r, Question(0, n), rulings, Later(qs, skip), inspect);
  }

  lemma AcceptedRest(c: Change, script: seq<string>, inspect: Inspect) returns (skip: nat)
    requires Asked(c, script, inspect).Accepted?
    ensures 0 < skip <= |script| && Trim(script[skip - 1]) == "" && Asked(c, script, inspect).rest == script[skip..]
  {
    var n := FirstAnswerCounts(c, script, inspect);
    skip := n + 1;
  }

  lemma {:induction false} RulingsAnswered(cs: seq<Change>, i: nat, script: seq<string>, kept: set<nat>,
                                          inspect: Inspect) returns (qs: seq<Question>)
    requires i <= |cs| && Reviewed(cs, i, script, kept, inspect).Through?
    ensures AnsweredAt(cs, script, Reviewed(cs, i, script, kept, inspect).rulings, qs, inspect)
    decreases |cs| - i
  {
    qs := [];
    if i < |cs| {
      if cs[i].entry in kept {
        qs := RulingsAnswered(cs, i + 1, script, kept, inspect);
      } else {
        match Asked(cs[i], script, inspect) {
          case Stopped(_) =>
          case Accepted(rest) =>
            var skip := AcceptedRest(cs[i], script, inspect);
            var more := RulingsAnswered(cs, i + 1, rest, kept, inspect);
            AnsweredLater(cs, script, skip, Reviewed(cs, i + 1, rest, kept, inspect).rulings, more, inspect);
            qs := Later(more, skip);
          case Decided(choice, text, rest) =>
            var next := if KeepsEntry(cs[i], choice) then kept + {cs[i].entry} else kept;
            var n := DecidedByAnswer(cs[i], script, inspect);
            var skip := if choice.Edited? then n + 2 else n + 1;
            var more := RulingsAnswered(cs, i + 1, rest, next, inspect);
            var others := Reviewed(cs, i + 1, rest, next, inspect).rulings;
            AnsweredFirst(cs, script, Ruling(i, choice, text), n, skip, others, more, inspect);
            qs := [Question(0, n)] + Later(more, skip);
        }
      }
    }
  }

  /** Each decision handed on is the answer to the question about its change: the line that ends the question is the
      letter of the choice, an edited text is the line behind it, the lines before only repeat the question, and
      the questions stand in the order of the sorted changes. */
  lemma DecisionsAreAnswers(changes: seq<Change>, script: seq<string>, inspect: Inspect)
      returns (qs: seq<Question>, places: seq<nat>)
    requires Approved(changes, script, inspect).Ok?
    ensures var ds, cs := Approved(changes, script, inspect).value, Sort(changes);
            && |qs| == |places| == |ds|
            && (forall k :: 0 <= k < |ds| ==>
                  && places[k] < |cs| && ds[k].key == cs[places[k]].key
                  && Answers(cs[places[k]], script, qs[k], ds[k].choice, ds[k].text, inspect))
            && (forall k, l :: 0 <= k < l < |ds| ==> qs[k].answer < qs[l].start && places[k] < places[l])
  {
    var cs := Sort(changes);
    RulingsInRange(cs, script, inspect);
    ReviewIsOrderly(cs, 0, script, {}, inspect);
    qs := RulingsAnswered(cs, 0, script, {}, inspect);
    var rulings := Reviewed(cs, 0, script, {}, inspect).rulings;
    places := seq(|rulings|, k requires 0 <= k < |rulings| => rulings[k].at);
  }

  /** Nothing to review is approved without a question. */
  lemma NothingToReview(script: seq<string>, inspect: Inspect)
    ensures Approved([], script, inspect) == Ok([])
  {
    assert Decisions(Sort([]), []) == [];
  }

  // ---- What an approved review guarantees

  /** Change keys are distinct. */
  ghost predicate DistinctKeys(changes: seq<Change>) {
    && (forall c :: multiset(changes)[c] <= 1)
    && (forall a, b :: a in changes && b in changes && a.key == b.key ==> a == b)
  }

  /** No entry has two changes of its password. */
  ghost predicate OnePassword(changes: seq<Change>) {
    forall a, b :: a in changes && b in changes && a.entry == b.entry && IsPassword(a) && IsPassword(b) ==> a == b
  }

  predicate Decides(decisions: seq<Decision>, key: nat) {
    exists k :: 0 <= k < |decisions| && decisions[k].key == key
  }

  predicate KeepsBoth(decisions: seq<Decision>, key: nat) {
    exists k :: 0 <= k < |decisions| && decisions[k].key == key && decisions[k].choice == Both
  }

  lemma TwoPlaces(changes: seq<Change>, i: nat, j: nat)
    requires i < j < |changes| && changes[i] == changes[j]
    ensures multiset(changes)[changes[i]] >= 2
  {
    assert changes == changes[..j] + [changes[j]] + changes[j + 1..];
    assert changes[..j][i] == changes[i];
    assert changes[i] in changes[..j];
  }

  lemma PlacesDiffer(changes: seq<Change>, i: nat, j: nat)
    requires DistinctKeys(changes) && i < j < |changes|
    ensures changes[i].key != changes[j].key
  {
    if changes[i] == changes[j] { TwoPlaces(changes, i, j); }
  }

  lemma SortKeepsMembers(changes: seq<Change>)
    ensures forall c :: c in Sort(changes) <==> c in changes
    ensures DistinctKeys(changes) ==> DistinctKeys(Sort(changes))
    ensures OnePassword(changes) ==> OnePassword(Sort(changes))
  {
    SortSorts(changes);
    forall c ensures c in Sort(changes) <==> c in changes {
      assert c in multiset(Sort(changes)) <==> c in multiset(changes);
    }
  }

  /** The decisions of an approved review, as rulings on the sorted changes. */
  lemma ApprovedRulings(changes: seq<Change>, script: seq<string>, inspect: Inspect) returns (course: Course)
    requires Approved(changes, script, inspect).Ok?
    ensures course == Reviewed(Sort(changes), 0, script, {}, inspect) && course.Through?
    ensures Orderly(Sort(changes), 0, {}, course)
    ensures Approved(changes, script, inspect).value == Decisions(Sort(changes), course.rulings)
  {
    course := Reviewed(Sort(changes), 0, script, {}, inspect);
    ReviewIsOrderly(Sort(changes), 0, script, {}, inspect);
  }

  /** Each change has at most one decision, each decision is about a change and chooses what was offered. */
  lemma OneDecisionEach(changes: seq<Change>, script: seq<string>, inspect: Inspect, k: nat)
    requires DistinctKeys(changes) && Approved(changes, script, inspect).Ok?
    requires k < |Approved(changes, script, inspect).value|
    ensures var ds := Approved(changes, script, inspect).value;
            && (forall l :: 0 <= l < |ds| && ds[l].key == ds[k].key ==> l == k)
            && (exists c :: c in changes && c.key == ds[k].key && Offered(c, Ruling(0, ds[k].choice, ds[k].text)))
  {
    var course := ApprovedRulings(changes, script, inspect);
    SortKeepsMembers(changes);
    var ds, cs := Approved(changes, script, inspect).value, Sort(changes);
    forall l | 0 <= l < |ds| && ds[l].key == ds[k].key ensures l == k {
      if l < k { PlacesDiffer(cs, course.rulings[l].at, course.rulings[k].at); }
      if k < l { PlacesDiffer(cs, course.rulings[k].at, course.rulings[l].at); }
    }
    assert cs[course.rulings[k].at] in cs;
  }

  /** Each change left undecided has a proposal, or belongs to an entry whose password is kept as both. */
  lemma EveryChangeIsSettled(changes: seq<Change>, script: seq<string>, inspect: Inspect, c: Change)
    requires Approved(changes, script, inspect).Ok? && c in changes
    ensures var ds := Approved(changes, script, inspect).value;
            || Decides(ds, c.key) || c.proposed
            || exists p :: p in changes && p.entry == c.entry && IsPassword(p) && KeepsBoth(ds, p.key)
  {
    var course := ApprovedRulings(changes, script, inspect);
    SortKeepsMembers(changes);
    var ds, cs := Approved(changes, script, inspect).value, Sort(changes);
    assert c in cs;
    var j :| 0 <= j < |cs| && cs[j] == c;
    UndecidedIsSettled(cs, 0, script, {}, inspect, j);
    KeptIffRuled(cs, 0, script, {}, inspect, c.entry);
    if Ruled(course.rulings, j) {
      var k :| 0 <= k < |course.rulings| && course.rulings[k].at == j;
      assert ds[k].key == c.key;
    } else if c.entry in course.kept {
      var k :| (&& 0 <= k < |course.rulings| && course.rulings[k].at < |cs| && cs[course.rulings[k].at].entry == c.entry
                && KeepsEntry(cs[course.rulings[k].at], course.rulings[k].choice));
      var p := cs[course.rulings[k].at];
      assert ds[k].key == p.key && ds[k].choice == Both;
      assert p in cs && p in changes && KeepsBoth(ds, p.key);
    }
  }

  /** Something else of an entry is decided whose password is kept as both. */
  ghost predicate DecidedBeside(changes: seq<Change>, ds: seq<Decision>, p: Change, c: Change) {
    && p in changes && c in changes && c != p && c.entry == p.entry && IsPassword(p)
    && KeepsBoth(ds, p.key) && Decides(ds, c.key)
  }

  /** That takes another change of the same password, standing in front of one that offers both. */
  ghost predicate TwoPasswords(cs: seq<Change>, i: nat, j: nat) {
    i < j < |cs| && IsPassword(cs[i]) && IsPassword(cs[j]) && cs[i].entry == cs[j].entry && cs[j].canKeepBoth
  }

  lemma PlaceOf(cs: seq<Change>, rulings: seq<Ruling>, c: Change, l: nat)
    requires DistinctKeys(cs) && c in cs && l < |rulings| && rulings[l].at < |cs|
    requires cs[rulings[l].at].key == c.key
    ensures cs[rulings[l].at] == c
  {
    assert cs[rulings[l].at] in cs;
  }

  lemma BesideNeedsTwo(changes: seq<Change>, script: seq<string>, inspect: Inspect, p: Change, c: Change)
      returns (i: nat, j: nat)
    requires DistinctKeys(changes) && Approved(changes, script, inspect).Ok?
    requires DecidedBeside(changes, Approved(changes, script, inspect).value, p, c)
    ensures TwoPasswords(Sort(changes), i, j) && Sort(changes)[i] == c && Sort(changes)[j] == p
  {
    var course := ApprovedRulings(changes, script, inspect);
    SortKeepsMembers(changes);
    SortSorts(changes);
    var ds, cs := Approved(changes, script, inspect).value, Sort(changes);
    var k :| 0 <= k < |ds| && ds[k].key == p.key && ds[k].choice == Both;
    var l :| 0 <= l < |ds| && ds[l].key == c.key;
    PlaceOf(cs, course.rulings, p, k);
    PlaceOf(cs, course.rulings, c, l);
    RuledBefore(cs, course, k, l);
    i, j := course.rulings[l].at, course.rulings[k].at;
  }

  lemma RuledBefore(cs: seq<Change>, course: Course, k: nat, l: nat)
    requires IsSorted(cs) && course.Through? && Orderly(cs, 0, {}, course)
    requires k < |course.rulings| && l < |course.rulings|
    requires var p, c := cs[course.rulings[k].at], cs[course.rulings[l].at];
             c != p && c.entry == p.entry && IsPassword(p) && course.rulings[k].choice == Both
    ensures TwoPasswords(cs, course.rulings[l].at, course.rulings[k].at)
  {
    var i, j := course.rulings[l].at, course.rulings[k].at;
    assert Offered(cs[j], course.rulings[k]) && KeepsEntry(cs[j], course.rulings[k].choice);
    assert l < k;
    assert Before(cs[i], cs[j]);
  }

  /** After an entry's password is kept as both, nothing else of that entry is decided: the sort put the
      password in front. */
  lemma NothingElseOfAKeptEntry(changes: seq<Change>, script: seq<string>, inspect: Inspect, p: Change, c: Change)
    requires DistinctKeys(changes) && OnePassword(changes) && Approved(changes, script, inspect).Ok?
    requires p in changes && c in changes && c != p && c.entry == p.entry && IsPassword(p)
    requires KeepsBoth(Approved(changes, script, inspect).value, p.key)
    ensures !Decides(Approved(changes, script, inspect).value, c.key)
  {
    if Decides(Approved(changes, script, inspect).value, c.key) {
      var i, j := BesideNeedsTwo(changes, script, inspect, p, c);
    }
  }

  // ---- And what can go wrong without it

  lemma LocalAnswer(c: Change, rest: seq<string>, inspect: Inspect)
    ensures Asked(c, ["l"] + rest, inspect) == Decided(Local, None, rest)
  {
    TrimKeeps("l");
    assert (["l"] + rest)[1..] == rest;
  }

  lemma BothAnswer(c: Change, rest: seq<string>, inspect: Inspect)
    requires c.canKeepBoth
    ensures Asked(c, ["b"] + rest, inspect) == Decided(Both, None, rest)
  {
    TrimKeeps("b");
    assert (["b"] + rest)[1..] == rest;
  }

  /** Some answers that take the review from place i to place n, deciding every change asked about. */
  lemma {:induction false} SomeAnswers(cs: seq<Change>, i: nat, kept: set<nat>, inspect: Inspect, tail: seq<string>)
      returns (script: seq<string>)
    requires i <= |cs|
    ensures Reviewed(cs, i, script, kept, inspect).Through?
    ensures Reviewed(cs, i, script, kept, inspect).rest == tail
    decreases |cs| - i
  {
    if i == |cs| {
      script := tail;
    } else if cs[i].entry in kept {
      script := SomeAnswers(cs, i + 1, kept, inspect, tail);
    } else {
      var rest := SomeAnswers(cs, i + 1, kept, inspect, tail);
      script := ["l"] + rest;
      LocalAnswer(cs[i], rest, inspect);
    }
  }

  /** Answers that decide everything up to place j and keep both there. */
  lemma {:induction false} AnswersUpTo(cs: seq<Change>, i: nat, j: nat, inspect: Inspect, tail: seq<string>)
      returns (script: seq<string>)
    requires i <= j < |cs| && IsPassword(cs[j]) && cs[j].canKeepBoth
    ensures var course := Reviewed(cs, i, script, {}, inspect);
            && course.Through? && course.rest == tail && |course.rulings| > j - i
            && course.rulings[j - i].at == j && course.rulings[j - i].choice == Both
            && (forall k :: 0 <= k < j - i ==> course.rulings[k].at == i + k)
    decreases j - i
  {
    if i == j {
      var rest := SomeAnswers(cs, i + 1, {cs[i].entry}, inspect, tail);
      script := ["b"] + rest;
      BothAnswer(cs[i], rest, inspect);
      assert {} + {cs[i].entry} == {cs[i].entry};
    } else {
      var rest := AnswersUpTo(cs, i + 1, j, inspect, tail);
      script := ["l"] + rest;
      LocalAnswer(cs[i], rest, inspect);
    }
  }

  lemma ApprovedByYes(changes: seq<Change>, script: seq<string>, inspect: Inspect)
    requires var course := Reviewed(Sort(changes), 0, script, {}, inspect); course.Through? && course.rest == ["yes"]
    ensures var course := Reviewed(Sort(changes), 0, script, {}, inspect);
            && (forall k :: 0 <= k < |course.rulings| ==> course.rulings[k].at < |Sort(changes)|)
            && Approved(changes, script, inspect) == Ok(Decisions(Sort(changes), course.rulings))
  {
    RulingsInRange(Sort(changes), script, inspect);
    TrimKeeps("yes");
  }

  lemma TwoOfOneEntry(changes: seq<Change>, i: nat, j: nat)
    requires DistinctKeys(changes) && i < j < |Sort(changes)|
    ensures var cs := Sort(changes); cs[i] in changes && cs[j] in changes && cs[i] != cs[j]
  {
    SortKeepsMembers(changes);
    var cs := Sort(changes);
    PlacesDiffer(cs, i, j);
    assert cs[i] in cs && cs[j] in cs;
  }

  lemma TwoPasswordsBreak(changes: seq<Change>, inspect: Inspect, i: nat, j: nat) returns (script: seq<string>)
    requires DistinctKeys(changes) && TwoPasswords(Sort(changes), i, j)
    ensures Approved(changes, script, inspect).Ok?
    ensures DecidedBeside(changes, Approved(changes, script, inspect).value, Sort(changes)[j], Sort(changes)[i])
  {
    var cs := Sort(changes);
    script := AnswersUpTo(cs, 0, j, inspect, ["yes"]);
    ApprovedByYes(changes, script, inspect);
    BothDecided(cs, Reviewed(cs, 0, script, {}, inspect).rulings, i, j);
    TwoOfOneEntry(changes, i, j);
  }

  lemma BothDecided(cs: seq<Change>, rulings: seq<Ruling>, i: nat, j: nat)
    requires forall k :: 0 <= k < |rulings| ==> rulings[k].at < |cs|
    requires i < j < |rulings| && rulings[i].at == i && rulings[j].at == j && rulings[j].choice == Both
    ensures var ds := Decisions(cs, rulings); KeepsBoth(ds, cs[j].key) && Decides(ds, cs[i].key)
  {
    var ds := Decisions(cs, rulings);
    assert ds[j].key == cs[j].key && ds[j].choice == Both && ds[i].key == cs[i].key;
  }

  /** Some script of answers decides something else of an entry kept as both exactly when the entry has
      two changes of its password and the later one offers to keep both. */
  lemma DecidedBesideIffTwoPasswords(changes: seq<Change>, inspect: Inspect)
    requires DistinctKeys(changes)
    ensures (exists script, p, c :: (Approved(changes, script, inspect).Ok?
                                     && DecidedBeside(changes, Approved(changes, script, inspect).value, p, c)))
            <==> exists i, j :: TwoPasswords(Sort(changes), i, j)
  {
    if exists script, p, c :: (Approved(changes, script, inspect).Ok?
                               && DecidedBeside(changes, Approved(changes, script, inspect).value, p, c)) {
      var script, p, c :| (Approved(changes, script, inspect).Ok?
                           && DecidedBeside(changes, Approved(changes, script, inspect).value, p, c));
      var i, j := BesideNeedsTwo(changes, script, inspect, p, c);
    }
    if exists i, j :: TwoPasswords(Sort(changes), i, j) {
      var i, j :| TwoPasswords(Sort(changes), i, j);
      var script := TwoPasswordsBreak(changes, inspect, i, j);
    }
  }
}
