/**
  `RadixQueue`: a first-in first-out queue of mixed-radix digits, packed into 64-bit segments that
  are kept in a ring.
 */
module RadixQueues {
  import opened Arithmetic
  import opened Sequences

  const U64_MAX: nat := 0xFFFF_FFFF_FFFF_FFFF

  datatype Item = Item(radix: nat, value: nat)

  predicate ValidItem(it: Item) { it.value < it.radix <= U64_MAX }

  predicate ValidItems(items: seq<Item>) { forall i :: 0 <= i < |items| ==> ValidItem(items[i]) }

  datatype Segment = Segment(radix: nat, value: nat)

  const BLANK: Segment := Segment(1, 0)

  // ---------------------------------------------------------------- mixed-radix numerals

  /** The numeral with these digits, least significant first, and how many numerals there are. */
  function Encode(digits: seq<Item>): Segment {
    if digits == [] then BLANK
    else
      var rest := Encode(digits[1..]);
      Segment(digits[0].radix * rest.radix, digits[0].value + digits[0].radix * rest.value)
  }

  lemma MulLess(r: nat, v: nat, radix: nat, value: nat)
    requires v < r && value < radix
    ensures v + r * value < r * radix
  {
    assert r * value <= r * (radix - 1);
  }

  lemma {:induction false} EncodeBound(digits: seq<Item>)
    requires ValidItems(digits)
    ensures Encode(digits).value < Encode(digits).radix
  {
    if digits != [] {
      var rest := Encode(digits[1..]);
      EncodeBound(digits[1..]);
      MulLess(digits[0].radix, digits[0].value, rest.radix, rest.value);
    }
  }

  /** How a digit is added at the most significant end. */
  function Extend(s: Segment, it: Item): Segment { Segment(s.radix * it.radix, s.value + it.value * s.radix) }

  lemma ExtendScaled(r: nat, v: nat, s: Segment, it: Item)
    ensures Extend(Segment(r * s.radix, v + r * s.value), it) ==
            Segment(r * Extend(s, it).radix, v + r * Extend(s, it).value)
  {
    assert r * s.radix * it.radix == r * (s.radix * it.radix);
    assert it.value * (r * s.radix) == r * (it.value * s.radix);
    assert r * (s.value + it.value * s.radix) == r * s.value + r * (it.value * s.radix);
  }

  lemma {:induction false} EncodeSnoc(digits: seq<Item>, it: Item)
    ensures Encode(digits + [it]) == Extend(Encode(digits), it)
  {
    if digits == [] {
      assert ([] + [it])[1..] == [];
    } else {
      assert (digits + [it])[1..] == digits[1..] + [it];
      EncodeSnoc(digits[1..], it);
      ExtendScaled(digits[0].radix, digits[0].value, Encode(digits[1..]), it);
    }
  }

  /** Taking the least significant digit off. */
  lemma EncodeCons(it: Item, digits: seq<Item>)
    requires ValidItem(it) && ValidItems(digits)
    ensures var s := Encode([it] + digits);
            && it.radix <= s.radix && s.value % it.radix == it.value
            && Segment(s.radix / it.radix, s.value / it.radix) == Encode(digits)
  {
    assert ([it] + digits)[1..] == digits;
    var rest := Encode(digits);
    EncodeBound(digits);
    DivMod(it.value, it.radix, rest.value);
    DivMod(0, it.radix, rest.radix);
    MulMono(it.radix, 1, rest.radix);
  }

  lemma FactorsOfOne(a: nat, b: nat)
    requires a > 0 && b > 0
    ensures a * b == 1 <==> a == 1 && b == 1
  {
    MulMono(b, 1, a);
    MulMono(a, 1, b);
  }

  /** Digits of radix 1 take no room. */
  lemma {:induction false} EncodeOnes(ones: seq<Item>, digits: seq<Item>)
    requires ValidItems(ones) && Encode(ones).radix == 1
    ensures Encode(ones + digits) == Encode(digits)
  {
    if ones == [] {
      assert ones + digits == digits;
    } else {
      EncodeBound(ones[1..]);
      FactorsOfOne(ones[0].radix, Encode(ones[1..]).radix);
      assert (ones + digits)[1..] == ones[1..] + digits;
      EncodeOnes(ones[1..], digits);
    }
  }

  // ---------------------------------------------------------------- push and pop

  /** The segments, front first. */
  type Segments = s: seq<Segment> | |s| > 0 witness [BLANK]

  predicate WouldOverflow(segs: Segments, radix: nat)
    requires segs[|segs| - 1].radix > 0
  {
    U64_MAX / segs[|segs| - 1].radix < radix
  }

  /** A new segment is started exactly if the product of the radices would not fit 64 bits. */
  lemma OverflowMeans(segs: Segments, radix: nat)
    requires segs[|segs| - 1].radix > 0
    ensures WouldOverflow(segs, radix) <==> segs[|segs| - 1].radix * radix > U64_MAX
  {
    var r := segs[|segs| - 1].radix;
    var q := U64_MAX / r;
    if q < radix { MulMono(r, q + 1, radix); } else { MulMono(r, radix, q); }
  }

  function Pushed(segs: Segments, it: Item): Segments
    requires segs[|segs| - 1].radix > 0
  {
    if WouldOverflow(segs, it.radix) then segs + [Extend(BLANK, it)]
    else segs[..|segs| - 1] + [Extend(segs[|segs| - 1], it)]
  }

  /** What is left of a segment without its least significant digit. */
  function Divided(s: Segment, radix: nat): Segment
    requires radix > 0
  {
    Segment(s.radix / radix, s.value / radix)
  }

  function Popped(segs: Segments, radix: nat): Segments
    requires radix > 0
  {
    var s := Divided(segs[0], radix);
    if s.radix == 1 && |segs| > 1 then segs[1..] else [s] + segs[1..]
  }

  // ---------------------------------------------------------------- what the segments hold

  /** The segment is the numeral of its digits and fits 64 bits. */
  ghost predicate Numeral(s: Segment, digits: seq<Item>) {
    ValidItems(digits) && s == Encode(digits) && 0 < s.radix <= U64_MAX
  }

  /** Only a lone segment can be without content. */
  ghost predicate Encodes(segs: Segments, groups: seq<seq<Item>>) {
    && |groups| == |segs|
    && (forall k :: 0 <= k < |segs| ==> Numeral(segs[k], groups[k]))
    && (|segs| > 1 ==> forall k :: 0 <= k < |segs| ==> segs[k].radix >= 2)
  }

  /** The pending items, oldest first, are the digits of the segments in order. */
  ghost predicate Holds(segs: Segments, items: seq<Item>) {
    exists groups :: Encodes(segs, groups) && Flatten(groups) == items
  }

  lemma Fits(radix: nat, r: nat)
    requires radix > 0
    ensures U64_MAX / radix < r <==> radix * r > U64_MAX
  {
    var q := U64_MAX / radix;
    assert U64_MAX == radix * q + U64_MAX % radix;
    if q < r { MulMono(radix, q + 1, r); } else { MulMono(radix, r, q); }
  }

  lemma PushKept(segs: Segments, front: seq<seq<Item>>, group: seq<Item>, it: Item)
    requires Encodes(segs, front + [group]) && ValidItem(it) && !WouldOverflow(segs, it.radix)
    ensures Encodes(Pushed(segs, it), front + [group + [it]])
  {
    var last := |segs| - 1;
    assert Numeral(segs[last], (front + [group])[last]);
    EncodeSnoc(group, it);
    Fits(segs[last].radix, it.radix);
    MulMono(segs[last].radix, 1, it.radix);
    forall k | 0 <= k < last ensures Numeral(segs[k], front[k]) { assert Numeral(segs[k], (front + [group])[k]); }
  }

  lemma OverflowRadix(radix: nat, r: nat)
    requires 0 < radix <= U64_MAX && r <= U64_MAX && U64_MAX / radix < r
    ensures radix >= 2 && r >= 2
  {
    Fits(radix, r);
  }

  lemma PushNew(segs: Segments, groups: seq<seq<Item>>, it: Item)
    requires Encodes(segs, groups) && ValidItem(it) && WouldOverflow(segs, it.radix)
    ensures Encodes(Pushed(segs, it), groups + [[it]])
  {
    OverflowRadix(segs[|segs| - 1].radix, it.radix);
    assert Numeral(Extend(BLANK, it), [it]) by {
      assert [it] == [] + [it];
      EncodeSnoc([], it);
    }
    var more := segs + [Extend(BLANK, it)];
    assert Pushed(segs, it) == more;
    forall k | 0 <= k < |more| ensures Numeral(more[k], (groups + [[it]])[k]) && more[k].radix >= 2 {}
  }

  lemma FlattenLast(front: seq<seq<Item>>, group: seq<Item>, it: Item)
    ensures Flatten(front + [group + [it]]) == Flatten(front + [group]) + [it]
  {
    FlattenSnoc(front, group);
    FlattenSnoc(front, group + [it]);
  }

  lemma HoldsGroups(segs: Segments, groups: seq<seq<Item>>)
    requires Encodes(segs, groups)
    ensures Holds(segs, Flatten(groups))
  {
  }

  lemma PushHoldsGroups(segs: Segments, groups: seq<seq<Item>>, it: Item)
    requires Encodes(segs, groups) && ValidItem(it)
    ensures Holds(Pushed(segs, it), Flatten(groups) + [it])
  {
    if WouldOverflow(segs, it.radix) {
      PushNew(segs, groups, it);
      FlattenSnoc(groups, [it]);
      HoldsGroups(Pushed(segs, it), groups + [[it]]);
    } else {
      var front, group := groups[..|groups| - 1], groups[|groups| - 1];
      assert groups == front + [group];
      PushKept(segs, front, group, it);
      FlattenLast(front, group, it);
      HoldsGroups(Pushed(segs, it), front + [group + [it]]);
    }
  }

  /** Pushing appends, whatever segment the item goes to; nothing overflows 64 bits. */
  lemma PushHolds(segs: Segments, items: seq<Item>, it: Item)
    requires Holds(segs, items) && ValidItem(it)
    ensures Holds(Pushed(segs, it), items + [it])
  {
    var groups: seq<seq<Item>> :| Encodes(segs, groups) && Flatten(groups) == items;
    PushHoldsGroups(segs, groups, it);
  }

  /** If anything is pending, the front segment has the oldest item as its least significant digit. */
  lemma OldestInFront(segs: Segments, groups: seq<seq<Item>>)
    requires Encodes(segs, groups) && Flatten(groups) != []
    ensures groups[0] != [] && Flatten(groups)[0] == groups[0][0]
  {
    assert Numeral(segs[0], groups[0]);
    if |groups| == 1 { assert groups == [groups[0]]; FlattenOne(groups[0]); }
  }

  lemma PopKept(segs: Segments, groups: seq<seq<Item>>, rest: seq<Item>, s: Segment)
    requires Encodes(segs, groups) && Numeral(s, rest) && (|segs| > 1 ==> s.radix >= 2)
    ensures Encodes([s] + segs[1..], [rest] + groups[1..])
  {
  }

  lemma PopDropped(segs: Segments, groups: seq<seq<Item>>, rest: seq<Item>)
    requires Encodes(segs, groups) && ValidItems(rest) && Encode(rest).radix == 1 && |segs| > 1
    ensures Encodes(segs[1..], [rest + groups[1]] + groups[2..])
  {
    EncodeOnes(rest, groups[1]);
    assert Numeral(segs[1], groups[1]);
    var gs := [rest + groups[1]] + groups[2..];
    forall k | 0 <= k < |gs| ensures Numeral(segs[1..][k], gs[k]) { assert k > 0 ==> gs[k] == groups[k + 1]; }
  }

  lemma Quotient(x: nat, r: nat)
    requires r > 0
    ensures x / r <= x
  {
    assert x == r * (x / r) + x % r;
    MulMono(x / r, 1, r);
  }

  lemma FrontPopped(segs: Segments, groups: seq<seq<Item>>) returns (s: Segment, rest: seq<Item>)
    requires Encodes(segs, groups) && groups[0] != []
    ensures var it := groups[0][0];
            && rest == groups[0][1..] && ValidItem(it) && Numeral(s, rest)
            && it.radix <= segs[0].radix && segs[0].value % it.radix == it.value
            && s == Segment(segs[0].radix / it.radix, segs[0].value / it.radix) && s.value < s.radix
  {
    assert Numeral(segs[0], groups[0]);
    var it := groups[0][0];
    rest := groups[0][1..];
    s := Encode(rest);
    assert groups[0] == [it] + rest;
    EncodeCons(it, rest);
    EncodeBound(rest);
    Quotient(segs[0].radix, it.radix);
  }

  /** Popping with the radix of the oldest item returns it and leaves the rest; both checks pass. */
  lemma PopHolds(segs: Segments, items: seq<Item>)
    requires Holds(segs, items) && items != []
    ensures var it := items[0];
            && ValidItem(it) && it.radix <= segs[0].radix && segs[0].value % it.radix == it.value
            && segs[0].value / it.radix < segs[0].radix / it.radix
            && Holds(Popped(segs, it.radix), items[1..])
  {
    var groups: seq<seq<Item>> :| Encodes(segs, groups) && Flatten(groups) == items;
    OldestInFront(segs, groups);
    var s, rest := FrontPopped(segs, groups);
    if s.radix == 1 && |segs| > 1 {
      PopDropped(segs, groups, rest);
      FlattenDropped(groups);
    } else {
      PopKept(segs, groups, rest, s);
      FlattenKept(groups);
    }
  }

  lemma TailConcat(x: seq<Item>, y: seq<Item>)
    requires x != []
    ensures (x + y)[1..] == x[1..] + y
  {
  }

  lemma Assoc(x: seq<Item>, y: seq<Item>, z: seq<Item>)
    ensures x + y + z == x + (y + z)
  {
  }

  lemma FlattenKept(groups: seq<seq<Item>>)
    requires |groups| > 0 && groups[0] != []
    ensures Flatten([groups[0][1..]] + groups[1..]) == Flatten(groups)[1..]
  {
    FlattenCons(groups[0][1..], groups[1..]);
    TailConcat(groups[0], Flatten(groups[1..]));
  }

  lemma FlattenDropped(groups: seq<seq<Item>>)
    requires |groups| > 1 && groups[0] != []
    ensures Flatten([groups[0][1..] + groups[1]] + groups[2..]) == Flatten(groups)[1..]
  {
    FlattenCons(groups[0][1..] + groups[1], groups[2..]);
    assert groups[1..] == [groups[1]] + groups[2..];
    FlattenCons(groups[1], groups[2..]);
    TailConcat(groups[0], Flatten(groups[1..]));
    Assoc(groups[0][1..], groups[1], Flatten(groups[2..]));
  }

  // ---------------------------------------------------------------- whole runs

  datatype Op = Push(it: Item) | Pop(radix: nat)

  /** Every push is of a value below its radix, every pop names the radix of the oldest pending item. */
  predicate Legal(items: seq<Item>, ops: seq<Op>)
    decreases |ops|
  {
    ops == [] ||
    match ops[0]
    case Push(it) => ValidItem(it) && Legal(items + [it], ops[1..])
    case Pop(radix) => items != [] && radix == items[0].radix && Legal(items[1..], ops[1..])
  }

  /** What the pops of a first-in first-out queue return. */
  function Fifo(items: seq<Item>, ops: seq<Op>): seq<nat>
    requires Legal(items, ops)
    decreases |ops|
  {
    if ops == [] then []
    else match ops[0]
      case Push(it) => Fifo(items + [it], ops[1..])
      case Pop(_) => [items[0].value] + Fifo(items[1..], ops[1..])
  }

  /** What the pops of the packed queue return. */
  function Play(segs: Segments, ops: seq<Op>): seq<nat>
    decreases |ops|
  {
    if ops == [] then []
    else match ops[0]
      case Push(it) => if segs[|segs| - 1].radix == 0 then [] else Play(Pushed(segs, it), ops[1..])
      case Pop(radix) => if radix == 0 then [] else [segs[0].value % radix] + Play(Popped(segs, radix), ops[1..])
  }

  /** On every legal run the packed queue is first-in first-out. */
  lemma {:induction false} PlaysFifo(segs: Segments, items: seq<Item>, ops: seq<Op>)
    requires Holds(segs, items) && Legal(items, ops)
    ensures Play(segs, ops) == Fifo(items, ops)
    decreases |ops|
  {
    if ops != [] {
      match ops[0]
      case Push(it) =>
        var groups: seq<seq<Item>> :| Encodes(segs, groups) && Flatten(groups) == items;
        assert Numeral(segs[|segs| - 1], groups[|segs| - 1]);
        PushHolds(segs, items, it);
        PlaysFifo(Pushed(segs, it), items + [it], ops[1..]);
      case Pop(radix) =>
        PopHolds(segs, items);
        PlaysFifo(Popped(segs, radix), items[1..], ops[1..]);
    }
  }

  /** Queues with equal segments give the same results on every later run, whatever their histories. */
  lemma EqualQueuesAgree(segs: Segments, items: seq<Item>, others: seq<Item>, ops: seq<Op>)
    requires Holds(segs, items) && Holds(segs, others) && Legal(items, ops) && Legal(others, ops)
    ensures Fifo(items, ops) == Fifo(others, ops)
  {
    PlaysFifo(segs, items, ops);
    PlaysFifo(segs, others, ops);
  }

  lemma PushToLone(r: nat, v: nat, it: Item)
    requires r > 0
    ensures r * it.radix <= U64_MAX ==> Pushed([Segment(r, v)], it) == [Extend(Segment(r, v), it)]
    ensures r * it.radix > U64_MAX ==> Pushed([Segment(r, v)], it) == [Segment(r, v), Segment(it.radix, it.value)]
  {
    Fits(r, it.radix);
  }

  lemma PushedOne(a: Item) returns (one: Segment)
    requires ValidItem(a)
    ensures one == Extend(BLANK, a) && one.radix == a.radix > 0 && one.value == a.value
    ensures Pushed([BLANK], a) == [one] && Holds([one], [a])
  {
    one := Extend(BLANK, a);
    PushToLone(1, 0, a);
    Fresh();
    PushHolds([BLANK], [], a);
    assert [] + [a] == [a];
  }

  lemma PushedNext(one: Segment, b: Item) returns (two: Segment)
    requires one.radix > 0 && b.radix > 0 && one.radix * b.radix <= U64_MAX
    ensures two == Extend(one, b) && two.radix == one.radix * b.radix > 0 && Pushed([one], b) == [two]
  {
    two := Extend(one, b);
    MulMono(one.radix, 1, b.radix);
    PushToLone(one.radix, one.value, b);
  }

  lemma HoldsTwo(one: Segment, a: Item, b: Item, two: Segment)
    requires one.radix > 0 && ValidItem(b) && Holds([one], [a]) && Pushed([one], b) == [two]
    ensures Holds([two], [a, b])
  {
    PushHolds([one], [a], b);
    assert [a] + [b] == [a, b];
  }

  /** Two items that share a segment. */
  lemma PushedTwo(a: Item, b: Item) returns (one: Segment, two: Segment)
    requires ValidItem(a) && ValidItem(b) && a.radix * b.radix <= U64_MAX
    ensures one == Extend(BLANK, a) && two == Extend(one, b) && one.radix > 0 && two.radix == a.radix * b.radix > 0
    ensures Pushed([BLANK], a) == [one] && Pushed([one], b) == [two] && Holds([two], [a, b])
  {
    one := PushedOne(a);
    two := PushedNext(one, b);
    HoldsTwo(one, a, b, two);
  }

  /** A third item that needs a segment of its own, and then a pop that leaves both segments. */
  lemma SharedThenPopped(a: Item, b: Item, c: Item, two: Segment) returns (early: Segments)
    requires ValidItem(a) && ValidItem(b) && ValidItem(c) && b.radix >= 2
    requires two.radix == a.radix * b.radix > 0 && two.radix * c.radix > U64_MAX && Holds([two], [a, b])
    ensures early == Popped(Pushed([two], c), a.radix) && |early| == 2 && Holds(early, [b, c])
  {
    PushToLone(two.radix, two.value, c);
    PushHolds([two], [a, b], c);
    assert [a, b] + [c] == [a, b, c] && [a, b, c][1..] == [b, c];
    PopHolds(Pushed([two], c), [a, b, c]);
    DivMod(0, a.radix, b.radix);
    early := Popped(Pushed([two], c), a.radix);
  }

  /**
    The converse fails: from the empty queue, pushing `b` and `c`, and pushing `a`, `b` and `c` and
    popping `a`, leave the same items pending but unequal queues, whenever `a` shared a segment with
    `b` that then had no room for `c`: radices 2^40, 2^10 and 2^20, say.
   */
  lemma SamePendingMayDiffer(a: Item, b: Item, c: Item) returns (early: Segments, late: Segments)
    requires ValidItem(a) && ValidItem(b) && ValidItem(c) && b.radix >= 2
    requires a.radix * b.radix <= U64_MAX < a.radix * b.radix * c.radix && b.radix * c.radix <= U64_MAX
    ensures var one := Extend(BLANK, a);
            && Pushed([BLANK], a) == [one] && one.radix > 0
            && var two := Extend(one, b);
               && Pushed([one], b) == [two] && two.radix > 0
               && early == Popped(Pushed([two], c), a.radix)
    ensures var alone := Extend(BLANK, b); Pushed([BLANK], b) == [alone] && alone.radix > 0 && late == Pushed([alone], c)
    ensures Holds(early, [b, c]) && Holds(late, [b, c]) && early != late
  {
    var one, two := PushedTwo(a, b);
    early := SharedThenPopped(a, b, c, two);
    var alone, together := PushedTwo(b, c);
    late := [together];
  }

  /** A lone segment of radix 1 means that every pending item has radix 1. */
  lemma {:induction false} OnesOnly(digits: seq<Item>)
    requires ValidItems(digits)
    ensures Encode(digits).radix == 1 <==> forall i :: 0 <= i < |digits| ==> digits[i].radix == 1
  {
    if digits != [] {
      var rest := Encode(digits[1..]);
      OnesOnly(digits[1..]);
      EncodeBound(digits[1..]);
      FactorsOfOne(digits[0].radix, rest.radix);
      assert digits == [digits[0]] + digits[1..];
    }
  }

  predicate EmptySegs(segs: Segments) { |segs| == 1 && segs[0].radix == 1 }

  /** `empty` says whether nothing but radix-1 items is pending. */
  lemma EmptyMeans(segs: Segments, items: seq<Item>)
    requires Holds(segs, items)
    ensures EmptySegs(segs) <==> forall i :: 0 <= i < |items| ==> items[i].radix == 1
  {
    var groups: seq<seq<Item>> :| Encodes(segs, groups) && Flatten(groups) == items;
    assert Numeral(segs[0], groups[0]);
    OnesOnly(groups[0]);
    if |segs| == 1 {
      assert groups == [groups[0]];
      FlattenOne(groups[0]);
    } else {
      assert segs[0].radix >= 2;
      var g: seq<Item> := groups[0];
      var i :| 0 <= i < |g| && g[i].radix != 1;
      assert items[i] == g[i];
    }
  }

  // ---------------------------------------------------------------- the ring

  /** `(front + k) % size`. */
  function Slot(size: nat, front: nat, k: nat): (r: nat)
    requires front < size && k <= size
    ensures r < size
  {
    if front + k < size then front + k else front + k - size
  }

  lemma SlotIs(size: nat, front: nat, k: nat)
    requires front < size && k <= size
    ensures Slot(size, front, k) == (front + k) % size
  {
    if front + k < size { DivMod(front + k, size, 0); } else { DivMod(front + k - size, size, 1); }
  }

  function Unroll(ring: seq<Segment>, front: nat, n: nat): (r: seq<Segment>)
    requires front < |ring| && n <= |ring|
    ensures |r| == n && forall k :: 0 <= k < n ==> r[k] == ring[Slot(|ring|, front, k)]
  {
    seq(n, k requires 0 <= k < n => ring[Slot(|ring|, front, k)])
  }

  class RadixQueue {
    const ring: array<Segment>
    var front: nat
    var back: nat
    /** The items pushed and not popped yet, oldest first. */
    ghost var pending: seq<Item>

    ghost predicate InRange()
      reads this`front, this`back
    {
      front < ring.Length && back < ring.Length
    }

    function QueueSize(): (n: nat)
      requires InRange()
      reads this`front, this`back
      ensures 0 < n <= ring.Length && back == Slot(ring.Length, front, n - 1)
    {
      (if front <= back then back + 1 else ring.Length + back + 1) - front
    }

    ghost function Segs(): Segments
      requires InRange()
      reads this`front, this`back, ring
    {
      Unroll(ring[..], front, QueueSize())
    }

    ghost predicate Valid()
      reads this, ring
    {
      InRange() && Holds(Segs(), pending)
    }

    constructor (queueSize: nat)
      requires queueSize > 0
      ensures Valid() && fresh(ring) && ring.Length == queueSize && pending == [] && Segs() == [BLANK]
    {
      ring := new Segment[queueSize](_ => BLANK);
      front, back, pending := 0, 0, [];
      new;
      assert Segs() == [BLANK];
      Fresh();
    }

    method Clear()
      requires Valid()
      modifies this, ring
      ensures Valid() && pending == [] && Segs() == [BLANK]
    {
      front, back, ring[0], pending := 0, 0, BLANK, [];
      assert Segs() == [BLANK];
      Fresh();
    }

    predicate Empty()
      requires InRange()
      reads this`front, this`back, ring
    {
      QueueSize() == 1 && ring[front].radix == 1
    }

    /** `empty` does not mean that nothing is pending, but that no pending item has a radix of 2 or more. */
    lemma EmptyIs()
      requires Valid()
      ensures Empty() <==> forall i :: 0 <= i < |pending| ==> pending[i].radix == 1
    {
      assert ring[front] == Segs()[0];
      EmptyMeans(Segs(), pending);
    }

    predicate Full()
      requires InRange()
      reads this`front, this`back
    {
      front == (back + 1) % ring.Length
    }

    lemma FullMeans()
      requires InRange()
      ensures Full() <==> QueueSize() == ring.Length
    {
      SlotIs(ring.Length, back, 1);
    }

    method PushBack()
      requires InRange() && !Full()
      modifies this, ring
      ensures InRange() && Segs() == old(Segs()) + [BLANK] && pending == old(pending)
    {
      FullMeans();
      SlotIs(ring.Length, back, 1);
      ghost var before := Segs();
      back := (back + 1) % ring.Length;
      ring[back] := BLANK;
      assert Segs() == before + [BLANK];
    }

    method PopFront()
      requires InRange() && front != back
      modifies this
      ensures InRange() && Segs() == old(Segs())[1..] && pending == old(pending)
    {
      SlotIs(ring.Length, front, 1);
      ghost var before := Segs();
      front := (front + 1) % ring.Length;
      assert Segs() == before[1..];
    }

    /** Adds a digit to the last segment, within 64 bits. */
    method ExtendBack(radix: nat, value: nat, ghost segs: Segments)
      requires InRange() && segs == Segs() && Fits64(Grown(segs, Item(radix, value)))
      modifies ring
      ensures Segs() == Extended(segs, Item(radix, value))
    {
      assert ring[back] == segs[|segs| - 1];
      ring[back] := Segment(ring[back].radix * radix, ring[back].value + value * ring[back].radix);
      assert Segs() == Extended(segs, Item(radix, value));
    }

    method SetFront(s: Segment)
      requires InRange()
      modifies ring
      ensures Segs() == [s] + old(Segs())[1..]
    {
      ghost var before := Segs();
      ring[front] := s;
      assert Segs() == [s] + before[1..];
    }

    /** Starts a new segment if the last one would overflow. */
    method MakeRoom(radix: nat)
      requires InRange() && Segs()[|Segs()| - 1].radix > 0
      requires WouldOverflow(Segs(), radix) ==> !Full()
      modifies this, ring
      ensures InRange() && Segs() == Ready(old(Segs()), radix) && pending == old(pending)
    {
      assert ring[back] == Segs()[|Segs()| - 1];
      var wouldOverflow := U64_MAX / ring[back].radix < radix;
      if wouldOverflow { PushBack(); }
    }

    /** Appends to the pending items; demands room for a segment only when the last one would overflow. */
    method Push(radix: nat, value: nat)
      requires Valid() && value < radix <= U64_MAX
      requires WouldOverflow(Segs(), radix) ==> !Full()
      modifies this, ring
      ensures Valid() && pending == old(pending) + [Item(radix, value)]
      ensures Segs() == Pushed(old(Segs()), Item(radix, value))
    {
      PushedLast(Segs(), pending, Item(radix, value));
      PushDigit(radix, value, Ready(Segs(), radix));
      ghost var segs := Segs();
      pending := pending + [Item(radix, value)];
      assert Segs() == segs;
    }

    method PushDigit(radix: nat, value: nat, ghost ready: Segments)
      requires InRange() && Segs()[|Segs()| - 1].radix > 0 && (WouldOverflow(Segs(), radix) ==> !Full())
      requires ready == Ready(Segs(), radix) && Fits64(Grown(ready, Item(radix, value)))
      modifies this, ring
      ensures InRange() && Segs() == Extended(ready, Item(radix, value)) && pending == old(pending)
    {
      MakeRoom(radix);
      ExtendBack(radix, value, ready);
    }

    /** Removes the oldest pending item and returns its value. */
    method Pop(radix: nat) returns (value: nat)
      requires Valid() && pending != [] && radix == pending[0].radix && radix > 0
      modifies this, ring
      ensures Valid() && value == old(pending)[0].value && pending == old(pending)[1..]
      ensures Segs() == Popped(old(Segs()), radix)
    {
      PopHolds(Segs(), pending);
      value := PopDigit(radix);
      pending := pending[1..];
    }

    method PopDigit(radix: nat) returns (value: nat)
      requires InRange() && radix > 0
      modifies this, ring
      ensures InRange() && value == old(Segs())[0].value % radix && Segs() == Popped(old(Segs()), radix) && pending == old(pending)
    {
      var first := SegmentAt(0);
      value := first.value % radix;
      var s := Divided(first, radix);
      SetFront(s);
      if s.radix == 1 && QueueSize() > 1 {
        PopFront();
      }
    }

    /** The segment at a place, counted from the front. */
    function SegmentAt(i: nat): (s: Segment)
      requires InRange() && i < QueueSize()
      reads this`front, this`back, ring
      ensures s == Segs()[i]
    {
      SlotIs(ring.Length, front, i);
      ring[(front + i) % ring.Length]
    }

    /** `operator==`. */
    method Equals(other: RadixQueue) returns (same: bool)
      requires InRange() && other.InRange() && ring.Length == other.ring.Length
      ensures same <==> Segs() == other.Segs()
    {
      var size := QueueSize();
      if size != other.QueueSize() { return false; }
      var i := 0;
      while i < size
        invariant i <= size && forall k :: 0 <= k < i ==> Segs()[k] == other.Segs()[k]
      {
        var mine, theirs := SegmentAt(i), other.SegmentAt(i);
        if mine.radix != theirs.radix || mine.value != theirs.value { return false; }
        i := i + 1;
      }
      return true;
    }
  }

  /** The last segment with one more digit. */
  function Grown(segs: Segments, it: Item): Segment { Extend(segs[|segs| - 1], it) }

  predicate Fits64(s: Segment) { s.value < s.radix <= U64_MAX }

  function Extended(segs: Segments, it: Item): Segments { segs[..|segs| - 1] + [Grown(segs, it)] }

  function Ready(segs: Segments, radix: nat): Segments
    requires segs[|segs| - 1].radix > 0
  {
    if WouldOverflow(segs, radix) then segs + [BLANK] else segs
  }

  lemma PushedIs(segs: Segments, it: Item)
    requires segs[|segs| - 1].radix > 0
    ensures Pushed(segs, it) == Extended(Ready(segs, it.radix), it)
  {
    if WouldOverflow(segs, it.radix) { assert (segs + [BLANK])[..|segs|] == segs; }
  }

  /** A push is making room and then extending the last segment, within 64 bits. */
  lemma PushedLast(segs: Segments, items: seq<Item>, it: Item)
    requires Holds(segs, items) && ValidItem(it)
    ensures segs[|segs| - 1].radix > 0
    ensures var ready := Ready(segs, it.radix);
            Pushed(segs, it) == Extended(ready, it) && Holds(Extended(ready, it), items + [it]) && Fits64(Grown(ready, it))
  {
    FitsSegment(segs, items);
    PushHolds(segs, items, it);
    FitsSegment(Pushed(segs, it), items + [it]);
    PushedIs(segs, it);
  }

  /** The segment that items are added to is within 64 bits. */
  lemma FitsSegment(segs: Segments, items: seq<Item>)
    requires Holds(segs, items)
    ensures segs[|segs| - 1].value < segs[|segs| - 1].radix <= U64_MAX
  {
    var groups: seq<seq<Item>> :| Encodes(segs, groups) && Flatten(groups) == items;
    assert Numeral(segs[|segs| - 1], groups[|segs| - 1]);
    EncodeBound(groups[|segs| - 1]);
  }

  lemma Fresh()
    ensures Holds([BLANK], [])
  {
    assert Encodes([BLANK], [[]]);
    FlattenOne<Item>([]);
  }
}
