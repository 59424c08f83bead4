/**
  The bounded, append-only string interner of `hirn-core`, one call at a time.

  `AtomicIntern` is the reference: a table of distinct strings in insertion order,
  in which a handle is a position.  The class keeps the two maps of the program,
  string to handle and handle to string, in step with that table.
  Module `InternerProtocol` shows that concurrent callers see the same reference.
 */
module Interner {
  import opened Lists
  import opened Options

  /** Handles are `u32` values. */
  const U32_MAX: nat := 0xFFFF_FFFF
  const U32_SPAN: nat := 0x1_0000_0000

  datatype Outcome = Handle(id: nat) | CapacityExhausted

  /** Position of the first occurrence of `s`. */
  function IndexOf(table: seq<string>, s: string): (i: nat)
    requires s in table
    ensures i < |table| && table[i] == s
    ensures s !in table[..i]
  {
    if table[0] == s then 0 else 1 + IndexOf(table[1..], s)
  }

  /** The cap an interner runs with: handles are `u32`, so a larger request is cut down. */
  function EffectiveCap(requested: nat): (cap: nat)
    ensures cap <= requested && cap <= U32_MAX
    ensures cap == requested || cap == U32_MAX
  {
    if requested < U32_MAX then requested else U32_MAX
  }

  /** Interning as one indivisible operation on a table. */
  function AtomicIntern(table: seq<string>, cap: nat, s: string): (r: (seq<string>, Outcome)) {
    if s in table then (table, Handle(IndexOf(table, s)))
    else if |table| < cap then (table + [s], Handle(|table|))
    else (table, CapacityExhausted)
  }

  function AtomicResolve(table: seq<string>, id: nat): Option<string> {
    if id < |table| then Some(table[id]) else None
  }

  /** What one indivisible intern promises, whatever the table holds. */
  lemma {:induction false} AtomicInternMeaning(table: seq<string>, cap: nat, s: string)
    requires Distinct(table) && |table| <= cap
    ensures var (table', o) := AtomicIntern(table, cap, s);
            && Distinct(table') && |table'| <= cap && table <= table'
            && (o.Handle? ==> AtomicResolve(table', o.id) == Some(s))
            && (o.CapacityExhausted? <==> s !in table && |table| == cap)
            && (o.CapacityExhausted? ==> table' == table)
  {
  }

  /** In a table of distinct strings a position determines its string and conversely. */
  lemma {:induction false} IndexOfUnique(table: seq<string>, i: nat)
    requires Distinct(table) && i < |table|
    ensures IndexOf(table, table[i]) == i
  {
  }

  class StringInterner {
    var forward: map<string, nat>
    var reverse: seq<string>
    const maxEntries: nat

    ghost predicate Valid()
      reads this
    {
      && |reverse| <= maxEntries <= U32_MAX
      && Distinct(reverse)
      && (forall s :: s in forward <==> s in reverse)
      && (forall s | s in forward :: forward[s] < |reverse| && reverse[forward[s]] == s)
    }

    constructor WithMax(requested: nat)
      ensures Valid()
      ensures reverse == [] && forward == map[]
      ensures maxEntries == EffectiveCap(requested)
    {
      forward := map[];
      reverse := [];
      maxEntries := EffectiveCap(requested);
    }

    method TryIntern(s: string) returns (r: Outcome)
      requires Valid()
      modifies this`forward, this`reverse
      ensures Valid()
      ensures (reverse, r) == AtomicIntern(old(reverse), maxEntries, s)
    {
      // Fast path.
      if s in forward {
        IndexOfUnique(reverse, forward[s]);
        return Handle(forward[s]);
      }
      // Slow path.  The second look-up under the lock can only hit when another
      // caller interleaves, so it appears in `InternerProtocol` and not here.
      var current := |reverse|;
      if current >= maxEntries {
        return CapacityExhausted;
      }
      var id := current % U32_SPAN;
      reverse := reverse + [s];
      forward := forward[s := id];
      return Handle(id);
    }

    method TryResolve(id: nat) returns (r: Option<string>)
      requires Valid()
      ensures r == AtomicResolve(reverse, id)
      ensures r.Some? ==> r.value in forward && forward[r.value] == id
    {
      if id < |reverse| {
        r := Some(reverse[id]);
      } else {
        r := None;
      }
    }

    /** Panics on a handle that was never handed out, hence the precondition. */
    method Resolve(id: nat) returns (s: string)
      requires Valid()
      requires id < |reverse|
      ensures s in forward && forward[s] == id
    {
      s := reverse[id];
    }
  }
}
