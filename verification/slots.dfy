/**
 How many spans each source may have, and how its units are dealt out to them
 (_allocate_slots and _partition_units in clozn/receipts/context_answer_influence.py).
 */
module Slots {
  import opened Common

  /** A source, as far as the allocation is concerned: its id, text length and number of units. */
  datatype Claim = Claim(id: string, length: nat, units: nat)

  type Allocation = map<string, nat>

  predicate DistinctIds(claims: seq<Claim>) {
    forall i, j :: 0 <= i < j < |claims| ==> claims[i].id != claims[j].id
  }

  predicate Allocated(claims: seq<Claim>, slots: Allocation) {
    forall i :: 0 <= i < |claims| ==> claims[i].id in slots && 1 <= slots[claims[i].id] <= claims[i].units
  }

  function TotalUnits(claims: seq<Claim>): nat {
    if claims == [] then 0 else TotalUnits(claims[..|claims| - 1]) + claims[|claims| - 1].units
  }

  function TotalSlots(claims: seq<Claim>, slots: Allocation): nat
    requires forall i :: 0 <= i < |claims| ==> claims[i].id in slots
  {
    if claims == [] then 0
    else TotalSlots(claims[..|claims| - 1], slots) + slots[claims[|claims| - 1].id]
  }

  /** Average characters per partition. */
  function Average(length: nat, parts: nat): real
    requires parts > 0
  {
    length as real / parts as real
  }

  /**
   t, which has an extra slot, has no smaller average than s would have with one more;
   on a tie the earlier source was served first.
   */
  predicate FairAt(claims: seq<Claim>, slots: Allocation, t: nat, s: nat)
    requires t < |claims| && s < |claims| && Allocated(claims, slots)
  {
    var a, b := slots[claims[t].id], slots[claims[s].id];
    a >= 2 && b < claims[s].units ==>
      && Average(claims[t].length, a) >= Average(claims[s].length, b + 1)
      && (s < t ==> Average(claims[t].length, a) > Average(claims[s].length, b + 1))
  }

  ghost predicate Fair(claims: seq<Claim>, slots: Allocation)
    requires Allocated(claims, slots)
  {
    forall t, s :: 0 <= t < |claims| && 0 <= s < |claims| ==> FairAt(claims, slots, t, s)
  }

  lemma AverageShrinks(length: nat, parts: nat, more: nat)
    requires 0 < parts <= more
    ensures Average(length, parts) >= Average(length, more)
    ensures length > 0 && parts < more ==> Average(length, parts) > Average(length, more)
  {
    var p, m := Average(length, parts), Average(length, more);
    assert p * parts as real == length as real == m * more as real;
    assert m * parts as real <= m * more as real;
  }

  predicate Eligible(claims: seq<Claim>, slots: Allocation, i: nat)
    requires i < |claims| && Allocated(claims, slots)
  {
    slots[claims[i].id] < claims[i].units
  }

  function Prospect(claims: seq<Claim>, slots: Allocation, i: nat): real
    requires i < |claims| && Allocated(claims, slots)
  {
    Average(claims[i].length, slots[claims[i].id] + 1)
  }

  /** max() over the sources with room, which keeps the first of equals. */
  method Choose(claims: seq<Claim>, slots: Allocation) returns (chosen: Option<nat>)
    requires Allocated(claims, slots)
    ensures chosen.None? <==> forall i :: 0 <= i < |claims| ==> !Eligible(claims, slots, i)
    ensures chosen.Some? ==> chosen.value < |claims| && Eligible(claims, slots, chosen.value)
    ensures chosen.Some? ==> forall i :: 0 <= i < |claims| && Eligible(claims, slots, i) ==>
      Prospect(claims, slots, i) <= Prospect(claims, slots, chosen.value)
    ensures chosen.Some? ==> forall i :: 0 <= i < chosen.value && Eligible(claims, slots, i) ==>
      Prospect(claims, slots, i) < Prospect(claims, slots, chosen.value)
  {
    chosen := None;
    for k := 0 to |claims|
      invariant chosen.None? <==> forall i :: 0 <= i < k ==> !Eligible(claims, slots, i)
      invariant chosen.Some? ==> chosen.value < k && Eligible(claims, slots, chosen.value)
      invariant chosen.Some? ==> forall i :: 0 <= i < k && Eligible(claims, slots, i) ==>
        Prospect(claims, slots, i) <= Prospect(claims, slots, chosen.value)
      invariant chosen.Some? ==> forall i :: 0 <= i < chosen.value && Eligible(claims, slots, i) ==>
        Prospect(claims, slots, i) < Prospect(claims, slots, chosen.value)
    {
      if Eligible(claims, slots, k) {
        if chosen.None? || Prospect(claims, slots, chosen.value) < Prospect(claims, slots, k) {
          chosen := Some(k);
        }
      }
    }
  }

  function OneSlotEach(claims: seq<Claim>): (slots: Allocation)
    ensures forall i :: 0 <= i < |claims| ==> claims[i].id in slots && slots[claims[i].id] == 1
  {
    if claims == [] then map[]
    else OneSlotEach(claims[..|claims| - 1])[claims[|claims| - 1].id := 1]
  }

  /** _allocate_slots: at least one slot a source, the others one by one to the largest average. */
  method AllocateSlots(claims: seq<Claim>, limit: nat) returns (slots: Allocation)
    requires DistinctIds(claims) && forall i :: 0 <= i < |claims| ==> claims[i].units > 0
    ensures Allocated(claims, slots)
    ensures TotalSlots(claims, slots) == Max(|claims|, Min(limit, TotalUnits(claims)))
    ensures Fair(claims, slots)
  {
    slots := OneSlotEach(claims);
    OneEach(claims, slots);
    var remaining := Max(0, limit - |claims|);
    while remaining > 0
      invariant Allocated(claims, slots) && Fair(claims, slots)
      invariant 0 <= remaining && TotalSlots(claims, slots) + remaining == Max(|claims|, limit)
      decreases remaining
    {
      var chosen := Choose(claims, slots);
      if chosen.None? {
        AllFull(claims, slots);
        break;
      }
      var id := claims[chosen.value].id;
      KeepsFair(claims, slots, chosen.value);
      AddSlot(claims, slots, chosen.value, |claims|);
      slots := slots[id := slots[id] + 1];
      remaining := remaining - 1;
    }
    WithinUnits(claims, slots);
  }

  lemma {:induction false} OneEach(claims: seq<Claim>, slots: Allocation)
    requires forall i :: 0 <= i < |claims| ==> claims[i].id in slots && slots[claims[i].id] == 1
    ensures TotalSlots(claims, slots) == |claims|
  {
    if claims != [] {
      OneEach(claims[..|claims| - 1], slots);
    }
  }

  lemma {:induction false} WithinUnits(claims: seq<Claim>, slots: Allocation)
    requires Allocated(claims, slots)
    ensures |claims| <= TotalSlots(claims, slots) <= TotalUnits(claims)
  {
    if claims != [] {
      WithinUnits(claims[..|claims| - 1], slots);
    }
  }

  lemma {:induction false} AllFull(claims: seq<Claim>, slots: Allocation)
    requires Allocated(claims, slots)
    requires forall i :: 0 <= i < |claims| ==> !Eligible(claims, slots, i)
    ensures TotalSlots(claims, slots) == TotalUnits(claims)
  {
    if claims != [] {
      var init := claims[..|claims| - 1];
      forall i | 0 <= i < |init| ensures !Eligible(init, slots, i) {
        assert !Eligible(claims, slots, i);
      }
      AllFull(init, slots);
      assert !Eligible(claims, slots, |claims| - 1);
    }
  }

  lemma {:induction false} AddSlot(claims: seq<Claim>, slots: Allocation, c: nat, upTo: nat)
    requires DistinctIds(claims) && Allocated(claims, slots) && c < |claims| && upTo <= |claims|
    ensures var id := claims[c].id; var more := slots[id := slots[id] + 1];
      TotalSlots(claims[..upTo], more) == TotalSlots(claims[..upTo], slots) + if c < upTo then 1 else 0
    ensures claims[..|claims|] == claims
  {
    if upTo > 0 {
      AddSlot(claims, slots, c, upTo - 1);
      assert claims[..upTo][..upTo - 1] == claims[..upTo - 1];
    }
  }

  /**
   Fairness and the number of slots leave no choice: any two such allocations agree.
   */
  lemma FairAllocationIsUnique(claims: seq<Claim>, a: Allocation, b: Allocation)
    requires Allocated(claims, a) && Allocated(claims, b) && Fair(claims, a) && Fair(claims, b)
    requires TotalSlots(claims, a) == TotalSlots(claims, b)
    ensures forall i :: 0 <= i < |claims| ==> a[claims[i].id] == b[claims[i].id]
  {
    if exists t :: 0 <= t < |claims| && a[claims[t].id] != b[claims[t].id] {
      var t :| 0 <= t < |claims| && a[claims[t].id] != b[claims[t].id];
      if a[claims[t].id] > b[claims[t].id] {
        var s := SmallerBelow(claims, a, b, t);
        NotBothFair(claims, a, b, t, s);
      } else {
        var s := SmallerBelow(claims, b, a, t);
        NotBothFair(claims, b, a, t, s);
      }
    }
  }

  /** t has more slots under a than under b, and s has fewer. */
  lemma NotBothFair(claims: seq<Claim>, a: Allocation, b: Allocation, t: nat, s: nat)
    requires Allocated(claims, a) && Allocated(claims, b)
    requires t < |claims| && a[claims[t].id] > b[claims[t].id]
    requires s < |claims| && a[claims[s].id] < b[claims[s].id]
    ensures !(FairAt(claims, a, t, s) && FairAt(claims, b, s, t))
  {
    AverageShrinks(claims[t].length, b[claims[t].id] + 1, a[claims[t].id]);
    AverageShrinks(claims[s].length, a[claims[s].id] + 1, b[claims[s].id]);
  }

  /** If a sums to no more than b, and to strictly less without one larger entry, some entry is smaller. */
  lemma {:induction false} SmallerBelow(claims: seq<Claim>, a: Allocation, b: Allocation, t: nat) returns (s: nat)
    requires Allocated(claims, a) && Allocated(claims, b)
    requires TotalSlots(claims, a) < TotalSlots(claims, b)
      || (t < |claims| && a[claims[t].id] > b[claims[t].id] && TotalSlots(claims, a) <= TotalSlots(claims, b))
    ensures s < |claims| && a[claims[s].id] < b[claims[s].id]
  {
    var last := |claims| - 1;
    if a[claims[last].id] < b[claims[last].id] {
      s := last;
    } else {
      s := SmallerBelow(claims[..last], a, b, t);
    }
  }

  lemma KeepsFair(claims: seq<Claim>, slots: Allocation, c: nat)
    requires DistinctIds(claims) && Allocated(claims, slots) && Fair(claims, slots)
    requires c < |claims| && Eligible(claims, slots, c)
    requires forall i :: 0 <= i < |claims| && Eligible(claims, slots, i) ==>
      Prospect(claims, slots, i) <= Prospect(claims, slots, c)
    requires forall i :: 0 <= i < c && Eligible(claims, slots, i) ==>
      Prospect(claims, slots, i) < Prospect(claims, slots, c)
    ensures var more := slots[claims[c].id := slots[claims[c].id] + 1];
      Allocated(claims, more) && Fair(claims, more)
  {
    var more := slots[claims[c].id := slots[claims[c].id] + 1];
    forall t, s | 0 <= t < |claims| && 0 <= s < |claims| ensures FairAt(claims, more, t, s) {
      assert FairAt(claims, slots, t, s);
      if s == c {
        var b := slots[claims[c].id];
        AverageShrinks(claims[c].length, b + 1, b + 2);
      } else if t == c && Eligible(claims, slots, s) {
        assert Prospect(claims, slots, s) <= Prospect(claims, slots, c);
      }
    }
  }

  // ------------------------------------------------------------- partitioning

  /** The i-th of `count` contiguous, balanced groups starts here. */
  function Cut(n: nat, count: nat, i: nat): nat
    requires count > 0
  {
    i * n / count
  }

  function PartCount(n: nat, count: int): nat {
    Min(Max(1, count), n)
  }

  lemma DivideBetween(x: nat, d: nat, q: nat)
    requires d > 0 && q * d <= x < q * d + d
    ensures x / d == q
  {
    var k := x / d;
    assert k * d <= x < k * d + d;
    assert k < q ==> (k + 1) * d <= q * d;
    assert k > q ==> (q + 1) * d <= k * d;
  }

  lemma CutEnds(n: nat, count: nat)
    requires count > 0
    ensures Cut(n, count, 0) == 0 && Cut(n, count, count) == n
  {
    DivideBetween(count * n, count, n);
  }

  lemma CutGrows(n: nat, count: nat, i: nat)
    requires count > 0
    ensures n / count <= Cut(n, count, i + 1) - Cut(n, count, i) <= n / count + 1
  {
    assert (i + 1) * n == i * n + n;
    DivideSum(i * n, n, count);
  }

  lemma DivideSum(x: nat, y: nat, d: nat)
    requires d > 0
    ensures x / d + y / d <= (x + y) / d <= x / d + y / d + 1
  {
    DivideParts(x, y, d, x / d, y / d, x % d, y % d);
  }

  lemma DivideParts(x: nat, y: nat, d: nat, p: nat, q: nat, a: nat, b: nat)
    requires a < d && b < d && x == p * d + a && y == q * d + b
    ensures p + q <= (x + y) / d <= p + q + 1
  {
    var m := if a + b < d then p + q else p + q + 1;
    assert m * d == p * d + q * d + if a + b < d then 0 else d;
    DivideBetween(x + y, d, m);
  }

  lemma {:induction false} CutMonotone(n: nat, count: nat, i: nat, j: nat)
    requires 0 < count && i <= j
    ensures Cut(n, count, i) <= Cut(n, count, j)
  {
    if i < j {
      CutMonotone(n, count, i, j - 1);
      CutGrows(n, count, j - 1);
      assert n / count >= 0;
    }
  }

  /** _partition_units */
  function PartitionUnits<T>(units: seq<T>, count: int): (groups: seq<seq<T>>)
    ensures |groups| == PartCount(|units|, count)
  {
    var n, parts := |units|, PartCount(|units|, count);
    seq(parts, i requires 0 <= i < parts =>
      CutMonotone(n, parts, i, i + 1);
      CutMonotone(n, parts, i + 1, parts);
      CutEnds(n, parts);
      units[Cut(n, parts, i)..Cut(n, parts, i + 1)])
  }

  function Flatten<T>(groups: seq<seq<T>>): seq<T> {
    if groups == [] then [] else Flatten(groups[..|groups| - 1]) + groups[|groups| - 1]
  }

  lemma {:induction false} FlattenPrefix<T>(units: seq<T>, count: int, i: nat)
    requires i <= PartCount(|units|, count) && units != []
    ensures Cut(|units|, PartCount(|units|, count), i) <= |units|
    ensures Flatten(PartitionUnits(units, count)[..i]) == units[..Cut(|units|, PartCount(|units|, count), i)]
  {
    var n, parts, groups := |units|, PartCount(|units|, count), PartitionUnits(units, count);
    CutEnds(n, parts);
    CutMonotone(n, parts, i, parts);
    if i > 0 {
      FlattenPrefix(units, count, i - 1);
      CutMonotone(n, parts, i - 1, i);
      assert groups[..i][..i - 1] == groups[..i - 1];
      assert groups[..i][i - 1] == units[Cut(n, parts, i - 1)..Cut(n, parts, i)];
    }
  }

  /** The groups are non-empty, give the units back in order, and differ in size by at most one. */
  lemma PartitionIsBalanced<T>(units: seq<T>, count: int)
    requires units != []
    ensures Flatten(PartitionUnits(units, count)) == units
    ensures forall g :: g in PartitionUnits(units, count) ==>
      && |g| >= 1
      && |units| / PartCount(|units|, count) <= |g| <= |units| / PartCount(|units|, count) + 1
  {
    var n, parts, groups := |units|, PartCount(|units|, count), PartitionUnits(units, count);
    FlattenPrefix(units, count, parts);
    assert groups[..parts] == groups;
    CutEnds(n, parts);
    assert n / parts >= 1 by { DivideAtLeastOne(n, parts); }
    forall i | 0 <= i < parts ensures n / parts <= |groups[i]| <= n / parts + 1 {
      GroupSize(units, count, i);
    }
  }

  lemma DivideAtLeastOne(n: nat, d: nat)
    requires 0 < d <= n
    ensures n / d >= 1
  {
  }

  lemma GroupSize<T>(units: seq<T>, count: int, i: nat)
    requires i < PartCount(|units|, count)
    ensures var n, parts := |units|, PartCount(|units|, count);
      n / parts <= |PartitionUnits(units, count)[i]| <= n / parts + 1
  {
    var n, parts := |units|, PartCount(|units|, count);
    CutMonotone(n, parts, i, i + 1);
    CutMonotone(n, parts, i + 1, parts);
    CutEnds(n, parts);
    CutGrows(n, parts, i);
    assert PartitionUnits(units, count)[i] == units[Cut(n, parts, i)..Cut(n, parts, i + 1)];
  }
}
