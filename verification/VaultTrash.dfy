/** Live and deleted entries of a vault, by their identifiers: adding, moving to the trash, restoring, and
    deleting permanently. */
module VaultTrash {
  import opened Results

  /** The live entries and the trash. */
  datatype Contents = Contents(entries: seq<nat>, trash: seq<nat>)

  function Position(ids: seq<nat>, id: nat): Option<nat> {
    if ids == [] then None
    else if ids[0] == id then Some(0)
    else match Position(ids[1..], id) case Some(n) => Some(n + 1) case None => None
  }

  lemma {:induction false} PositionFinds(ids: seq<nat>, id: nat)
    ensures Position(ids, id).Some? <==> id in ids
    ensures Position(ids, id).Some? ==> Position(ids, id).value < |ids| && ids[Position(ids, id).value] == id
  {
    if ids != [] { PositionFinds(ids[1..], id); }
  }

  function Without(ids: seq<nat>, at: nat): seq<nat>
    requires at < |ids|
  {
    ids[..at] + ids[at + 1..]
  }

  function Retained(ids: seq<nat>, id: nat): seq<nat> {
    if ids == [] then [] else (if ids[0] == id then [] else [ids[0]]) + Retained(ids[1..], id)
  }

  lemma {:induction false} RetainedMember(ids: seq<nat>, id: nat, x: nat)
    ensures x in Retained(ids, id) <==> x in ids && x != id
  {
    if ids != [] {
      RetainedMember(ids[1..], id, x);
      assert x in ids <==> x == ids[0] || x in ids[1..];
    }
  }

  lemma {:induction false} RetainedUnlessThere(ids: seq<nat>, id: nat)
    requires id !in ids
    ensures Retained(ids, id) == ids
  {
    if ids != [] {
      assert ids[0] in ids && forall x :: x in ids[1..] ==> x in ids;
      RetainedUnlessThere(ids[1..], id);
      assert [ids[0]] + ids[1..] == ids;
    }
  }

  lemma {:induction false} RetainedDistinct(ids: seq<nat>, id: nat)
    requires Distinct(ids)
    ensures Distinct(Retained(ids, id))
  {
    if ids != [] {
      RetainedDistinct(ids[1..], id);
      RetainedMember(ids[1..], id, ids[0]);
      assert ids[0] !in ids[1..];
    }
  }

  lemma RetainedMembers(ids: seq<nat>, id: nat)
    ensures forall x :: x in Retained(ids, id) <==> x in ids && x != id
    ensures id !in ids ==> Retained(ids, id) == ids
    ensures Distinct(ids) ==> Distinct(Retained(ids, id))
  {
    forall x ensures x in Retained(ids, id) <==> x in ids && x != id { RetainedMember(ids, id, x); }
    if id !in ids { RetainedUnlessThere(ids, id); }
    if Distinct(ids) { RetainedDistinct(ids, id); }
  }

  /** One turn of the loop that retains. */
  lemma RetainOne(kept: seq<nat>, ids: seq<nat>, i: nat, id: nat)
    requires i < |ids|
    ensures kept + Retained(ids[i..], id)
         == (if ids[i] == id then kept else kept + [ids[i]]) + Retained(ids[i + 1..], id)
  {
    assert ids[i..][1..] == ids[i + 1..];
    assert (kept + [ids[i]]) + Retained(ids[i + 1..], id) == kept + ([ids[i]] + Retained(ids[i + 1..], id));
    assert kept + ([] + Retained(ids[i + 1..], id)) == kept + Retained(ids[i + 1..], id);
  }

  predicate Distinct(ids: seq<nat>) { forall i, j :: 0 <= i < j < |ids| ==> ids[i] != ids[j] }

  lemma WithoutMembers(ids: seq<nat>, at: nat)
    requires at < |ids| && Distinct(ids)
    ensures Distinct(Without(ids, at)) && forall x :: x in Without(ids, at) <==> x in ids && x != ids[at]
  {
    var rest := Without(ids, at);
    forall x | x in ids && x != ids[at] ensures x in rest {
      var k :| 0 <= k < |ids| && ids[k] == x;
      assert x == rest[if k < at then k else k - 1];
    }
  }

  // ---- The operations

  function Trashed(c: Contents, id: nat): Result<Contents> {
    PositionFinds(c.entries, id);
    match Position(c.entries, id)
    case None => Err("Entry not found")
    case Some(at) => Ok(Contents(Without(c.entries, at), c.trash + [id]))
  }

  function Restored(c: Contents, id: nat): Result<Contents> {
    PositionFinds(c.trash, id);
    match Position(c.trash, id)
    case None => Err("Entry not found")
    case Some(at) => Ok(Contents(Retained(c.entries, id) + [id], Without(c.trash, at)))
  }

  /** Permanent deletion looks at the trash alone, and never fails for want of the entry. */
  function Purged(c: Contents, id: nat): Contents { c.(trash := Retained(c.trash, id)) }

  /** The lookup before a deletion finds live entries only. */
  predicate LooksUp(c: Contents, id: nat) { id in c.entries }

  class Bin {
    var entries: seq<nat>
    var trash: seq<nat>

    constructor ()
      ensures View() == Contents([], [])
    {
      entries, trash := [], [];
    }

    function View(): Contents
      reads this
    {
      Contents(entries, trash)
    }

    method Find(ids: seq<nat>, id: nat) returns (at: Option<nat>)
      ensures at == Position(ids, id)
    {
      var i := 0;
      while i < |ids| && ids[i] != id
        invariant i <= |ids|
        invariant Position(ids, id) == match Position(ids[i..], id) case Some(n) => Some(n + i) case None => None
      {
        assert ids[i..][1..] == ids[i + 1..];
        i := i + 1;
      }
      at := if i == |ids| then None else Some(i);
    }

    method Retain(ids: seq<nat>, id: nat) returns (kept: seq<nat>)
      ensures kept == Retained(ids, id)
    {
      kept := [];
      for i := 0 to |ids|
        invariant kept + Retained(ids[i..], id) == Retained(ids, id)
      {
        RetainOne(kept, ids, i, id);
        if ids[i] != id { kept := kept + [ids[i]]; }
      }
    }

    method Add(id: nat)
      modifies this
      ensures View() == Contents(old(entries) + [id], old(trash))
    {
      entries := entries + [id];
    }

    method Delete(id: nat) returns (r: Result<()>)
      modifies this
      ensures match Trashed(old(View()), id)
              case Ok(c) => r.Ok? && View() == c
              case Err(e) => r == Err(e) && View() == old(View())
    {
      PositionFinds(entries, id);
      var at := Find(entries, id);
      if at.None? {
        return Err("Entry not found");
      }
      entries := entries[..at.value] + entries[at.value + 1..];
      trash := trash + [id];
      r := Ok(());
    }

    method Restore(id: nat) returns (r: Result<()>)
      modifies this
      ensures match Restored(old(View()), id)
              case Ok(c) => r.Ok? && View() == c
              case Err(e) => r == Err(e) && View() == old(View())
    {
      PositionFinds(trash, id);
      var at := Find(trash, id);
      if at.None? {
        return Err("Entry not found");
      }
      trash := trash[..at.value] + trash[at.value + 1..];
      var others := Retain(entries, id);
      entries := others + [id];
      r := Ok(());
    }

    method PermanentDelete(id: nat)
      modifies this
      ensures View() == Purged(old(View()), id)
    {
      trash := Retain(trash, id);
    }
  }

  // ---- Every run

  datatype Event = Added(id: nat) | Deleted(id: nat) | Recovered(id: nat) | PermanentlyDeleted(id: nat)

  /** New entries get identifiers that are not in use. */
  predicate Enabled(c: Contents, e: Event) { e.Added? ==> e.id !in c.entries && e.id !in c.trash }

  function Next(c: Contents, e: Event): Contents {
    match e
    case Added(id) => c.(entries := c.entries + [id])
    case Deleted(id) => (match Trashed(c, id) case Ok(after) => after case Err(_) => c)
    case Recovered(id) => (match Restored(c, id) case Ok(after) => after case Err(_) => c)
    case PermanentlyDeleted(id) => Purged(c, id)
  }

  ghost predicate Reached(events: seq<Event>, c: Contents)
    decreases |events|
  {
    if events == [] then c == Contents([], [])
    else
      var k := |events| - 1;
      exists a :: Reached(events[..k], a) && Enabled(a, events[k]) && c == Next(a, events[k])
  }

  /** No entry is there twice, or both live and deleted. */
  ghost predicate Inv(c: Contents) {
    Distinct(c.entries) && Distinct(c.trash) && forall id :: id in c.entries ==> id !in c.trash
  }

  lemma StepKeepsInv(c: Contents, e: Event)
    requires Inv(c) && Enabled(c, e)
    ensures Inv(Next(c, e))
  {
    PositionFinds(c.entries, e.id);
    PositionFinds(c.trash, e.id);
    RetainedMembers(c.trash, e.id);
    RetainedMembers(c.entries, e.id);
    if e.id in c.entries { WithoutMembers(c.entries, Position(c.entries, e.id).value); }
    if e.id in c.trash { WithoutMembers(c.trash, Position(c.trash, e.id).value); }
  }

  lemma {:induction false} RunsKeepInv(events: seq<Event>, c: Contents)
    requires Reached(events, c)
    ensures Inv(c)
    decreases |events|
  {
    if events != [] {
      var k := |events| - 1;
      var a :| Reached(events[..k], a) && Enabled(a, events[k]) && c == Next(a, events[k]);
      RunsKeepInv(events[..k], a);
      StepKeepsInv(a, events[k]);
    }
  }

  /** In every run a new entry is live from then on, beside all that were. */
  lemma AddedIsLive(events: seq<Event>, c: Contents, id: nat, x: nat)
    requires Reached(events, c) && Enabled(c, Added(id))
    ensures x in Next(c, Added(id)).entries <==> x in c.entries || x == id
    ensures Next(c, Added(id)).trash == c.trash && Inv(Next(c, Added(id)))
  {
    RunsKeepInv(events, c);
    StepKeepsInv(c, Added(id));
  }

  /** In every run, restoring succeeds exactly for an entry in the trash; it is live then and in the trash no more,
      and nothing else moves. */
  lemma RestoredIsLive(events: seq<Event>, c: Contents, id: nat)
    requires Reached(events, c)
    ensures Restored(c, id).Ok? <==> id in c.trash
    ensures Next(c, Recovered(id)) == if id in c.trash then Restored(c, id).value else c
    ensures Restored(c, id).Ok? ==>
              var after := Restored(c, id).value;
              && (forall x :: x in after.entries <==> x in c.entries || x == id)
              && (forall x :: x in after.trash <==> x in c.trash && x != id)
  {
    RunsKeepInv(events, c);
    PositionFinds(c.trash, id);
    RetainedMembers(c.entries, id);
    if id in c.trash { WithoutMembers(c.trash, Position(c.trash, id).value); }
  }

  /** In every run, deleting succeeds exactly for a live entry; it is in the trash then and live no more, and nothing
      else moves. */
  lemma DeletedIsTrashed(events: seq<Event>, c: Contents, id: nat)
    requires Reached(events, c)
    ensures Trashed(c, id).Ok? <==> id in c.entries
    ensures Next(c, Deleted(id)) == if id in c.entries then Trashed(c, id).value else c
    ensures Trashed(c, id).Ok? ==>
              var after := Trashed(c, id).value;
              && (forall x :: x in after.entries <==> x in c.entries && x != id)
              && (forall x :: x in after.trash <==> x in c.trash || x == id)
  {
    RunsKeepInv(events, c);
    PositionFinds(c.entries, id);
    if id in c.entries { WithoutMembers(c.entries, Position(c.entries, id).value); }
  }

  /** A permanent deletion changes something exactly when the entry is in the trash; it never touches live
      entries. */
  lemma PermanentDeleteMattersIff(c: Contents, id: nat)
    ensures Purged(c, id) != c <==> id in c.trash
    ensures Purged(c, id).entries == c.entries && id !in Purged(c, id).trash
  {
    RetainedMembers(c.trash, id);
  }

  /** So, in every run, one that follows a successful lookup, as every one through a daemon does, leaves all
      entries as they are: the entry it reports deleted stays. */
  lemma LookedUpIsNotPurged(events: seq<Event>, c: Contents, id: nat)
    requires Reached(events, c) && LooksUp(c, id)
    ensures Purged(c, id) == c
  {
    RunsKeepInv(events, c);
    PermanentDeleteMattersIff(c, id);
  }

  /** An entry is gone for good after it was moved to the trash first. */
  lemma TrashedThenPurged(events: seq<Event>, c: Contents, id: nat)
    requires Reached(events, c) && LooksUp(c, id)
    ensures Trashed(c, id).Ok?
    ensures var after := Purged(Trashed(c, id).value, id);
            after.trash == c.trash && forall x :: x in after.entries <==> x in c.entries && x != id
  {
    RunsKeepInv(events, c);
    PositionFinds(c.entries, id);
    WithoutMembers(c.entries, Position(c.entries, id).value);
    RetainedAtEnd(c.trash, id);
  }

  lemma {:induction false} RetainedAtEnd(ids: seq<nat>, id: nat)
    requires id !in ids
    ensures Retained(ids + [id], id) == ids
  {
    if ids != [] {
      assert (ids + [id])[1..] == ids[1..] + [id];
      RetainedAtEnd(ids[1..], id);
    }
  }
}
