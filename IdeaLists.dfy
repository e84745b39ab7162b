/**
 * The operations the pages apply to their list of ideas after a database call:
 * append, replace by id, remove by id, the purchased toggle and the counts.
 */
module IdeaLists {
  import opened Wrappers
  import opened Records

  /** `ideas.map(i => i.id === id ? updated : i)`. */
  function ReplaceById(ideas: seq<Idea>, id: string, updated: Idea): (r: seq<Idea>)
    ensures |r| == |ideas|
    ensures forall k | 0 <= k < |r| :: r[k] == (if ideas[k].id == id then updated else ideas[k])
  {
    if ideas == [] then []
    else [if ideas[0].id == id then updated else ideas[0]] + ReplaceById(ideas[1..], id, updated)
  }

  /** `ideas.filter(i => i.id !== id)`. */
  function RemoveById(ideas: seq<Idea>, id: string): (r: seq<Idea>)
    ensures |r| <= |ideas|
    ensures forall x | x in r :: x in ideas && x.id != id
    ensures forall x | x in ideas && x.id != id :: x in r
  {
    if ideas == [] then []
    else if ideas[0].id == id then RemoveById(ideas[1..], id)
    else [ideas[0]] + RemoveById(ideas[1..], id)
  }

  /** Replacing touches only the matching entries, and a second replacement with the same row changes nothing. */
  lemma ReplaceByIdIdempotent(ideas: seq<Idea>, id: string, updated: Idea)
    requires updated.id == id
    ensures ReplaceById(ReplaceById(ideas, id, updated), id, updated) == ReplaceById(ideas, id, updated)
  {
  }

  /** Replacing an id that is not in the list leaves the list as it is. */
  lemma ReplaceAbsentId(ideas: seq<Idea>, id: string, updated: Idea)
    requires forall k | 0 <= k < |ideas| :: ideas[k].id != id
    ensures ReplaceById(ideas, id, updated) == ideas
  {
  }

  /** Removal works entry by entry, so the survivors keep their relative order. */
  lemma {:induction false} RemoveByIdAppend(a: seq<Idea>, b: seq<Idea>, id: string)
    ensures RemoveById(a + b, id) == RemoveById(a, id) + RemoveById(b, id)
  {
    if a == [] {
      assert a + b == b;
    } else {
      assert (a + b)[1..] == a[1..] + b;
      RemoveByIdAppend(a[1..], b, id);
    }
  }

  /** Removing an id that is not in the list leaves the list as it is. */
  lemma {:induction false} RemoveAbsentId(ideas: seq<Idea>, id: string)
    requires forall k | 0 <= k < |ideas| :: ideas[k].id != id
    ensures RemoveById(ideas, id) == ideas
  {
    if ideas != [] {
      RemoveAbsentId(ideas[1..], id);
    }
  }

  /** Removing the matching entries leaves one fewer entry per match. */
  lemma {:induction false} RemoveByIdCount(ideas: seq<Idea>, id: string)
    ensures |RemoveById(ideas, id)| == |ideas| - CountId(ideas, id)
  {
    if ideas != [] {
      RemoveByIdCount(ideas[1..], id);
    }
  }

  function CountId(ideas: seq<Idea>, id: string): nat {
    if ideas == [] then 0 else (if ideas[0].id == id then 1 else 0) + CountId(ideas[1..], id)
  }

  // ---------------------------------------------------------------- purchased state

  /** JavaScript truthiness of a `string | null`. */
  predicate Truthy(s: Option<string>) {
    s.Some? && s.value != ""
  }

  /** `current ? null : new Date()`: a set timestamp is cleared, an unset one becomes `now`. */
  function Toggled(current: Option<Timestamp>, now: Timestamp): (r: Option<Timestamp>)
    ensures r.Some? <==> !Truthy(current)
    ensures r.Some? ==> r.value == now
  {
    if Truthy(current) then None else Some(now)
  }

  /** With a real timestamp, two toggles from unset (or from set) come back to where they started. */
  lemma ToggleTwice(current: Option<Timestamp>, now1: Timestamp, now2: Timestamp)
    requires now1 != ""
    ensures current.None? ==> Toggled(Toggled(current, now1), now2) == None
    ensures Truthy(current) ==> Toggled(Toggled(current, now1), now2) == Some(now2)
  {
  }

  predicate Bought(i: Idea) {
    i.purchasedAt.Some?
  }

  /** `ideas.filter(i => i.purchased_at != null).length`. */
  function BoughtCount(ideas: seq<Idea>): nat {
    if ideas == [] then 0 else (if Bought(ideas[0]) then 1 else 0) + BoughtCount(ideas[1..])
  }

  /** `ideas.filter(i => i.purchased_at == null).length`. */
  function UnboughtCount(ideas: seq<Idea>): nat {
    if ideas == [] then 0 else (if Bought(ideas[0]) then 0 else 1) + UnboughtCount(ideas[1..])
  }

  /** Every idea is counted exactly once, as bought or as an idea still to buy. */
  lemma {:induction false} CountsPartition(ideas: seq<Idea>)
    ensures BoughtCount(ideas) + UnboughtCount(ideas) == |ideas|
  {
    if ideas != [] {
      CountsPartition(ideas[1..]);
    }
  }

  /** Counting works entry by entry: appending an idea adds it to exactly one count. */
  lemma {:induction false} CountsAppend(ideas: seq<Idea>, x: Idea)
    ensures BoughtCount(ideas + [x]) == BoughtCount(ideas) + (if Bought(x) then 1 else 0)
    ensures UnboughtCount(ideas + [x]) == UnboughtCount(ideas) + (if Bought(x) then 0 else 1)
  {
    if ideas != [] {
      assert (ideas + [x])[1..] == ideas[1..] + [x];
      CountsAppend(ideas[1..], x);
    }
  }

  /** The plural ending of "idea": `"s"` unless the count is exactly one. */
  function Plural(n: nat): (r: string)
    ensures r == "" <==> n == 1
    ensures r != "" ==> r == "s"
  {
    if n != 1 then "s" else ""
  }
}
