/**
 The arithmetic under the hierarchical timing wheel: base-64 digits of a tick.

 A tick is a natural number below 2^63 in the program, so unbounded arithmetic
 agrees with it. The bit operations of the source appear here as base-64 digit
 operations: `t >> (6 * level)` is `Shr(t, level)` and `k << (6 * level)` is
 `Shl(k, level)`. Both are defined by repeated division or multiplication by 64,
 which keeps every argument below linear.
 */
module WheelTime {

  const LEVELS: nat := 6
  const TOP: nat := 5
  const SLOTS: nat := 64
  /** 64^6: what the whole wheel spans. */
  const SPAN: nat := 0x10_0000_0000
  /** 64^5: the width of a slot on the top level. */
  const TOP_WIDTH: nat := 0x4000_0000

  /** t >> (6 * level) */
  function Shr(t: nat, level: nat): nat {
    if level == 0 then t else Shr(t, level - 1) / SLOTS
  }

  /** k << (6 * level) */
  function Shl(k: nat, level: nat): nat
    decreases level
  {
    if level == 0 then k else Shl(SLOTS * k, level - 1)
  }

  /** Shr and Shl form a Galois connection: the only fact that ties ticks to digits. */
  lemma {:induction false} ShlAtMost(k: nat, t: nat, level: nat)
    ensures Shl(k, level) <= t <==> k <= Shr(t, level)
    decreases level
  {
    if level > 0 { ShlAtMost(SLOTS * k, t, level - 1); }
  }

  lemma {:induction false} ShlAdd(a: nat, b: nat, level: nat)
    ensures Shl(a, level) + Shl(b, level) == Shl(a + b, level)
    decreases level
  {
    if level > 0 {
      ShlAdd(SLOTS * a, SLOTS * b, level - 1);
      assert SLOTS * a + SLOTS * b == SLOTS * (a + b);
    }
  }

  lemma {:induction false} ShlNext(k: nat, level: nat)
    ensures Shl(k, level + 1) == Shl(SLOTS * k, level)
  {
  }

  /** Dropping digits keeps the order. */
  lemma {:induction false} ShrMonotone(a: nat, b: nat, level: nat)
    requires a <= b
    ensures Shr(a, level) <= Shr(b, level)
  {
    if level > 0 { ShrMonotone(a, b, level - 1); }
  }

  lemma {:induction false} ShrOfShl(k: nat, level: nat)
    ensures Shr(Shl(k, level), level) == k
  {
    ShlAtMost(k, Shl(k, level), level);
    ShlAtMost(k + 1, Shl(k, level), level);
    ShlAdd(k, 1, level);
    ShlPositive(level);
  }

  lemma {:induction false} ShlPositive(level: nat)
    ensures Shl(1, level) >= 1
  {
    ShlAtMost(1, 0, level);
    ShrMonotone(0, 0, level);
    ShrZero(level);
  }

  lemma {:induction false} ShrZero(level: nat)
    ensures Shr(0, level) == 0
  {
    if level > 0 { ShrZero(level - 1); }
  }

  /** Adding a whole number of slots to a tick adds that number to its index. */
  lemma {:induction false} ShrAddShl(t: nat, k: nat, level: nat)
    ensures Shr(t + Shl(k, level), level) == Shr(t, level) + k
    decreases level
  {
    if level > 0 {
      ShrAddShl(t, SLOTS * k, level - 1);
    }
  }

  // --- when a slot comes up ------------------------------------------------------

  /** The first index after `current` whose lowest digit is `slot`. */
  function NextIndex(current: nat, slot: nat): (k: nat)
    requires slot < SLOTS
    ensures k > current && k % SLOTS == slot
    ensures forall j: nat :: current < j < k ==> j % SLOTS != slot
  {
    var k := current - current % SLOTS + slot;
    if k <= current then k + SLOTS else k
  }

  /** The tick at which the slot must be processed, computed as next_expiration() does. */
  function SlotDeadline(now: nat, level: nat, slot: nat): nat
    requires slot < SLOTS
  {
    var rotationStart := Shl(Shr(now, level + 1), level + 1);
    var deadline := rotationStart + Shl(slot, level);
    if deadline <= now then deadline + Shl(1, level + 1) else deadline
  }

  /** The slot's deadline is the first tick after now that is a multiple of the slot
      width and whose digit on this level is the slot. */
  lemma {:induction false} SlotDeadlineIsNextIndex(now: nat, level: nat, slot: nat)
    requires slot < SLOTS
    ensures SlotDeadline(now, level, slot) == Shl(NextIndex(Shr(now, level), slot), level)
    ensures SlotDeadline(now, level, slot) > now
  {
    var current := Shr(now, level);
    var base := SLOTS * (current / SLOTS);
    ShlAdd(base, slot, level);
    ShlAdd(base + slot, SLOTS, level);
    ShlAtMost(base + slot, now, level);
    ShlAtMost(NextIndex(current, slot), now, level);
    ShlNext(current / SLOTS, level);
    ShlNext(1, level);
  }

  // --- where a timer belongs ------------------------------------------------------

  /** A timer with this deadline may sit in this slot at this time. Below the top
      level the deadline agrees with now on every higher digit and is ahead on the
      slot's own digit; on the top level it is only known not to lie before the
      slot's next turn. */
  ghost predicate Placed(now: nat, deadline: nat, level: nat, slot: nat) {
    && level < LEVELS
    && slot < SLOTS
    && if level < TOP then
         && Shr(deadline, level + 1) == Shr(now, level + 1)
         && Shr(deadline, level) > Shr(now, level)
         && Shr(deadline, level) % SLOTS == slot
       else
         Shr(deadline, level) >= NextIndex(Shr(now, level), slot)
  }

  /** The level is the position of the highest base-64 digit in which the two ticks
      differ, capped at the top level. */
  function LevelFrom(now: nat, target: nat, level: nat): (r: nat)
    requires level <= TOP
    ensures level <= r <= TOP
    ensures r < TOP ==> Shr(now, r + 1) == Shr(target, r + 1)
    ensures forall l | level < l <= r :: Shr(now, l) != Shr(target, l)
    decreases TOP - level
  {
    if level == TOP || Shr(now, level + 1) == Shr(target, level + 1) then level
    else LevelFrom(now, target, level + 1)
  }

  /** The tick that place() files a future deadline under: the deadline itself, or
      one slot behind the current position when it is a full span or more away. */
  function PlaceTarget(now: nat, deadline: nat): nat {
    if deadline - now >= SPAN then now + SPAN - TOP_WIDTH else deadline
  }

  /** The (level, slot) that place() chooses for a future deadline. */
  function Choose(now: nat, deadline: nat): (r: (nat, nat))
    requires now < deadline
    ensures Placed(now, deadline, r.0, r.1)
  {
    var target := PlaceTarget(now, deadline);
    var level := LevelFrom(now, target, 0);
    ChooseIsPlaced(now, deadline);
    (level, Shr(target, level) % SLOTS)
  }

  lemma TopWidths()
    ensures Shl(1, TOP) == TOP_WIDTH
    ensures Shl(SLOTS - 1, TOP) == SPAN - TOP_WIDTH
    ensures Shl(SLOTS, TOP) == SPAN
  {
    forall k: nat ensures Shl(k, TOP) == TOP_WIDTH * k {
      calc {
        Shl(k, 5);
        Shl(64 * k, 4);
        Shl(64 * (64 * k), 3);
        Shl(64 * (64 * (64 * k)), 2);
        Shl(64 * (64 * (64 * (64 * k))), 1);
      }
    }
  }

  /** Parked or not, the target lies ahead and at most one turn of the top level ahead. */
  lemma {:induction false} TargetIsAhead(now: nat, deadline: nat)
    requires now < deadline
    ensures var target := PlaceTarget(now, deadline);
            && now < target <= deadline
            && Shr(now, TOP) <= Shr(target, TOP) <= Shr(now, TOP) + SLOTS
            && (deadline - now >= SPAN ==> Shr(target, TOP) == Shr(now, TOP) + SLOTS - 1)
  {
    var target := PlaceTarget(now, deadline);
    TopWidths();
    ShrAddShl(now, SLOTS - 1, TOP);
    ShrAddShl(now, SLOTS, TOP);
    ShrMonotone(now, target, TOP);
    ShrMonotone(target, now + SPAN, TOP);
  }

  lemma {:induction false} ChooseIsPlaced(now: nat, deadline: nat)
    requires now < deadline
    ensures var target := PlaceTarget(now, deadline);
            var level := LevelFrom(now, target, 0);
            Placed(now, deadline, level, Shr(target, level) % SLOTS)
  {
    var target := PlaceTarget(now, deadline);
    var level := LevelFrom(now, target, 0);
    TargetIsAhead(now, deadline);
    ShrMonotone(now, target, level);
    ShrMonotone(target, deadline, level);
  }

  // --- what the placement guarantees ----------------------------------------------

  /** A slot never comes up after the deadline of a timer in it. */
  lemma {:induction false} PlacedNotLate(now: nat, deadline: nat, level: nat, slot: nat)
    requires Placed(now, deadline, level, slot)
    ensures now < SlotDeadline(now, level, slot) <= deadline
    ensures level == 0 ==> SlotDeadline(now, level, slot) == deadline
  {
    SlotDeadlineIsNextIndex(now, level, slot);
    ShlAtMost(NextIndex(Shr(now, level), slot), deadline, level);
  }

  /** Until a slot comes up, time passing changes neither its tick nor the fact that
      its timers belong there. */
  lemma {:induction false} PlacedStays(now: nat, later: nat, deadline: nat, level: nat, slot: nat)
    requires Placed(now, deadline, level, slot)
    requires now <= later < SlotDeadline(now, level, slot)
    ensures Placed(later, deadline, level, slot)
    ensures SlotDeadline(later, level, slot) == SlotDeadline(now, level, slot)
  {
    SlotDeadlineIsNextIndex(now, level, slot);
    SlotDeadlineIsNextIndex(later, level, slot);
    var k := NextIndex(Shr(now, level), slot);
    ShrMonotone(now, later, level);
    ShlAtMost(k, later, level);
  }

  /** Two occupied slots never come up at the same tick. */
  lemma {:induction false} NoTies(now: nat, d1: nat, l1: nat, s1: nat, d2: nat, l2: nat, s2: nat)
    requires Placed(now, d1, l1, s1) && Placed(now, d2, l2, s2)
    requires l1 <= l2 && (l1, s1) != (l2, s2)
    ensures SlotDeadline(now, l1, s1) != SlotDeadline(now, l2, s2)
  {
    SlotDeadlineIsNextIndex(now, l1, s1);
    SlotDeadlineIsNextIndex(now, l2, s2);
    var k1, k2 := NextIndex(Shr(now, l1), s1), NextIndex(Shr(now, l2), s2);
    ShrOfShl(k1, l1);
    ShrOfShl(k2, l2);
    if l1 < l2 { ShrOfShlLower(k2, l2, l1); }
  }

  /** A tick that is whole on a level has digit zero on every level below. */
  lemma {:induction false} ShrOfShlLower(k: nat, level: nat, lower: nat)
    requires lower < level
    ensures Shr(Shl(k, level), lower) % SLOTS == 0
    decreases level
  {
    if level == lower + 1 {
      ShrOfShl(SLOTS * k, lower);
    } else {
      ShrOfShlLower(SLOTS * k, level - 1, lower);
    }
  }

  /** A timer re-placed when its slot comes up never returns to that slot: below the
      top level it moves to a lower level, on the top level to another slot. */
  lemma {:induction false} CascadeLeavesSlot(now: nat, deadline: nat, level: nat, slot: nat)
    requires Placed(now, deadline, level, slot)
    requires SlotDeadline(now, level, slot) < deadline
    ensures Choose(SlotDeadline(now, level, slot), deadline) != (level, slot)
    ensures level < TOP ==> Choose(SlotDeadline(now, level, slot), deadline).0 < level
  {
    var tick := SlotDeadline(now, level, slot);
    SlotDeadlineIsNextIndex(now, level, slot);
    var k := NextIndex(Shr(now, level), slot);
    ShrOfShl(k, level);
    var target := PlaceTarget(tick, deadline);
    TargetIsAhead(tick, deadline);
    TopWidths();
    if level < TOP {
      assert Shr(deadline, level) == k;
      SameAbove(tick, deadline, level, TOP);
      ShlAtMost(Shr(tick, TOP) + SLOTS, deadline, TOP);
    } else {
      ShlAdd(k, SLOTS, TOP);
      ShlAtMost(k + SLOTS, deadline, TOP);
      ShlAtMost(k, deadline, TOP);
    }
  }

  lemma {:induction false} SameAbove(a: nat, b: nat, low: nat, high: nat)
    requires low <= high && Shr(a, low) == Shr(b, low)
    ensures Shr(a, high) == Shr(b, high)
    decreases high
  {
    if low < high { SameAbove(a, b, low, high - 1); }
  }
}
