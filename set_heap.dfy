/**
 * The sorted set (set.go): a slice of members that the container/heap
 * package keeps as a binary min-heap under Set.Less, which orders by score
 * and breaks equal scores by member name.
 *
 * The Set type's own methods (Len, Less, Swap, Push, Pop, FindByIndex,
 * FindByRank) are methods of a class over a sequence field. The heap
 * package itself is not part of this model: heap.Pop is modelled as
 * removing a Less-minimal element, and heap.Push as adding one, both
 * stated over the multiset of elements; where in the slice the elements
 * then sit is not modelled.
 */
module SortedSet {
  import opened GeoSet

  datatype SetMember = SetMember(member: string, score: SetScore)

  /** The `any` value handed to Push: a SetMember or something else. */
  datatype Item = MemberItem(m: SetMember) | OtherItem

  /** Go's `<` on strings: bytewise lexicographic order, a proper prefix first. */
  predicate StrLess(a: string, b: string)
    decreases |a|
  {
    if a == [] then b != []
    else if b == [] then false
    else if a[0] != b[0] then a[0] < b[0]
    else StrLess(a[1..], b[1..])
  }

  lemma {:induction false} StrLessIrreflexive(a: string)
    ensures !StrLess(a, a)
    decreases |a|
  {
    if a != [] {
      StrLessIrreflexive(a[1..]);
    }
  }

  lemma {:induction false} StrLessTransitive(a: string, b: string, c: string)
    requires StrLess(a, b) && StrLess(b, c)
    ensures StrLess(a, c)
    decreases |a|
  {
    if a != [] && b != [] && c != [] && a[0] == b[0] && b[0] == c[0] {
      StrLessTransitive(a[1..], b[1..], c[1..]);
    }
  }

  /** Two different strings are ordered one way or the other. */
  lemma {:induction false} StrLessTotal(a: string, b: string)
    requires a != b
    ensures StrLess(a, b) || StrLess(b, a)
    decreases |a|
  {
    if a != [] && b != [] && a[0] == b[0] {
      assert a == [a[0]] + a[1..] && b == [b[0]] + b[1..];
      StrLessTotal(a[1..], b[1..]);
    }
  }

  /** Set.Less: by score, and by member name when the scores are equal. */
  predicate MemberLess(x: SetMember, y: SetMember) {
    if Equal(x.score, y.score) then StrLess(x.member, y.member) else Less(x.score, y.score)
  }

  /** Every score in the sequence is of one kind (all geo or all regular). */
  predicate OneKind(s: seq<SetMember>) {
    forall i, j :: 0 <= i < |s| && 0 <= j < |s| ==> SameKind(s[i].score, s[j].score)
  }

  /** Set.Less is a strict order. */
  lemma MemberLessOrder(x: SetMember, y: SetMember, z: SetMember)
    ensures !MemberLess(x, x)
    ensures MemberLess(x, y) && MemberLess(y, z) ==> MemberLess(x, z)
  {
    StrLessIrreflexive(x.member);
    OrderLaws(x.score, y.score, z.score);
    OrderLaws(y.score, z.score, x.score);
    OrderLaws(z.score, x.score, y.score);
    if MemberLess(x, y) && MemberLess(y, z) && Equal(x.score, y.score) && Equal(y.score, z.score) {
      StrLessTransitive(x.member, y.member, z.member);
    }
  }

  /** Members of one score kind with different names are ordered one way or the other. */
  lemma MemberLessTotal(x: SetMember, y: SetMember)
    requires SameKind(x.score, y.score) && x.member != y.member
    ensures MemberLess(x, y) || MemberLess(y, x)
  {
    Trichotomy(x.score, y.score);
    OrderLaws(x.score, y.score, x.score);
    if Equal(x.score, y.score) {
      StrLessTotal(x.member, y.member);
    }
  }

  /** How many elements of s are Less than x: x's 0-based rank among them. */
  function CountLess(s: seq<SetMember>, x: SetMember): (n: nat)
    ensures n <= |s|
  {
    if s == [] then 0 else (if MemberLess(s[0], x) then 1 else 0) + CountLess(s[1..], x)
  }

  lemma {:induction false} CountLessAppend(a: seq<SetMember>, b: seq<SetMember>, x: SetMember)
    ensures CountLess(a + b, x) == CountLess(a, x) + CountLess(b, x)
  {
    if a == [] {
      assert a + b == b;
    } else {
      assert (a + b)[0] == a[0] && (a + b)[1..] == a[1..] + b;
      CountLessAppend(a[1..], b, x);
    }
  }

  /** Taking one element out of a sequence takes it out of the multiset. */
  lemma MultisetRemove(b: seq<SetMember>, k: int)
    requires 0 <= k < |b|
    ensures multiset(b[..k] + b[k + 1..]) == multiset(b) - multiset{b[k]}
  {
    assert b == b[..k] + [b[k]] + b[k + 1..];
  }

  /** Taking one element out of a sequence takes its share out of the count. */
  lemma CountLessRemove(b: seq<SetMember>, k: int, x: SetMember)
    requires 0 <= k < |b|
    ensures CountLess(b, x) == (if MemberLess(b[k], x) then 1 else 0) + CountLess(b[..k] + b[k + 1..], x)
  {
    assert b == b[..k] + b[k..];
    assert b[k..][1..] == b[k + 1..];
    CountLessAppend(b[..k], b[k..], x);
    CountLessAppend(b[..k], b[k + 1..], x);
  }

  /** The first element of a sits at some index k of its permutation b, and the rests are permutations. */
  lemma PermutationStep(a: seq<SetMember>, b: seq<SetMember>) returns (k: int)
    requires multiset(a) == multiset(b) && a != []
    ensures 0 <= k < |b| && b[k] == a[0]
    ensures multiset(a[1..]) == multiset(b[..k] + b[k + 1..])
  {
    assert a[0] in multiset(b);
    k :| 0 <= k < |b| && b[k] == a[0];
    MultisetRemove(b, k);
    MultisetTail(a);
    calc {
      multiset(a[1..]);
      multiset(a) - multiset{a[0]};
      multiset(b) - multiset{b[k]};
      multiset(b[..k] + b[k + 1..]);
    }
  }

  lemma MultisetTail(a: seq<SetMember>)
    requires a != []
    ensures multiset(a[1..]) == multiset(a) - multiset{a[0]}
  {
    assert a == [a[0]] + a[1..];
  }

  /** The rank does not depend on the order of the elements. */
  lemma {:induction false} CountLessPermutation(a: seq<SetMember>, b: seq<SetMember>, x: SetMember)
    requires multiset(a) == multiset(b)
    ensures CountLess(a, x) == CountLess(b, x)
    decreases |a|
  {
    if a != [] {
      hide CountLess, MemberLess;
      var k := PermutationStep(a, b);
      CountLessPermutation(a[1..], b[..k] + b[k + 1..], x);
      CountLessRemove(b, k, x);
      CountLessRemove(a, 0, x);
      assert a[..0] + a[1..] == a[1..];
    } else {
      assert |b| == |multiset(b)| == 0;
    }
  }

  lemma {:induction false} CountLessNone(s: seq<SetMember>, x: SetMember)
    requires forall e :: e in s ==> !MemberLess(e, x)
    ensures CountLess(s, x) == 0
  {
    if s != [] {
      assert forall e :: e in s[1..] ==> e in s;
      CountLessNone(s[1..], x);
    }
  }

  lemma {:induction false} CountLessAll(s: seq<SetMember>, x: SetMember)
    requires forall e :: e in s ==> MemberLess(e, x)
    ensures CountLess(s, x) == |s|
  {
    if s != [] {
      assert forall e :: e in s[1..] ==> e in s;
      CountLessAll(s[1..], x);
    }
  }

  class Set {
    var elems: seq<SetMember>

    constructor (elems: seq<SetMember>)
      ensures this.elems == elems
    {
      this.elems := elems;
    }

    method Len() returns (n: int)
      ensures n == |elems|
    {
      n := |elems|;
    }

    method Less(i: int, j: int) returns (b: bool)
      requires 0 <= i < |elems| && 0 <= j < |elems|
      ensures b == MemberLess(elems[i], elems[j])
    {
      if Equal(elems[i].score, elems[j].score) {
        b := StrLess(elems[i].member, elems[j].member);
      } else {
        b := GeoSet.Less(elems[i].score, elems[j].score);
      }
    }

    method Swap(i: int, j: int)
      requires 0 <= i < |elems| && 0 <= j < |elems|
      modifies this`elems
      ensures elems == old(elems)[i := old(elems)[j]][j := old(elems)[i]]
      ensures multiset(elems) == multiset(old(elems))
    {
      elems := elems[i := elems[j]][j := elems[i]];
    }

    /** Appends a SetMember; anything else is ignored. */
    method Push(x: Item)
      modifies this`elems
      ensures x.MemberItem? ==> elems == old(elems) + [x.m]
      ensures x.OtherItem? ==> elems == old(elems)
    {
      if x.MemberItem? {
        elems := elems + [x.m];
      }
    }

    /** Removes and returns the last element (heap.Pop has moved the minimum there). */
    method Pop() returns (x: SetMember)
      requires |elems| > 0
      modifies this`elems
      ensures old(elems) == elems + [x]
    {
      x := elems[|elems| - 1];
      elems := elems[..|elems| - 1];
    }

    /** The least index whose member has the given name, or -1. */
    method FindByIndex(member: string) returns (idx: int)
      ensures -1 <= idx < |elems|
      ensures idx >= 0 ==> elems[idx].member == member
      ensures forall k :: 0 <= k < |elems| && (idx == -1 || k < idx) ==> elems[k].member != member
    {
      var i := 0;
      while i < |elems|
        invariant 0 <= i <= |elems|
        invariant forall k :: 0 <= k < i ==> elems[k].member != member
      {
        if elems[i].member == member {
          return i;
        }
        i := i + 1;
      }
      idx := -1;
    }

    /**
     * heap.Pop: takes out an element no other element is Less than (the
     * root of a valid heap), by moving it to the end and popping it.
     */
    method HeapPop() returns (x: SetMember)
      requires |elems| > 0
      modifies this`elems
      ensures multiset(elems) + multiset{x} == multiset(old(elems))
      ensures x in old(elems)
      ensures forall e :: e in old(elems) ==> !MemberLess(e, x)
    {
      var best := 0;
      var i := 1;
      MemberLessOrder(elems[0], elems[0], elems[0]);
      while i < |elems|
        invariant elems == old(elems)
        invariant 0 <= best < |elems| && 1 <= i <= |elems|
        invariant forall k :: 0 <= k < i ==> !MemberLess(elems[k], elems[best])
      {
        if MemberLess(elems[i], elems[best]) {
          forall k | 0 <= k < i
            ensures !MemberLess(elems[k], elems[i])
          {
            MemberLessOrder(elems[k], elems[i], elems[best]);
          }
          MemberLessOrder(elems[i], elems[i], elems[i]);
          best := i;
        }
        i := i + 1;
      }
      ghost var before := elems;
      Swap(best, |elems| - 1);
      ghost var swapped := elems;
      x := Pop();
      assert x == swapped[|swapped| - 1] == before[best];
      assert multiset(elems + [x]) == multiset(elems) + multiset{x};
    }

    /** heap.Push: the element joins the set. */
    method HeapPush(x: SetMember)
      modifies this`elems
      ensures multiset(elems) == multiset(old(elems)) + multiset{x}
    {
      Push(MemberItem(x));
    }

    /**
     * Pops members in Less order until one has the given name, then pushes
     * every popped member back. The result is that member's 0-based rank:
     * the number of elements Less than it. It is -1 when no member has the
     * name. The rank is stated for scores of one kind, where Set.Less orders
     * any two members with different names.
     */
    method FindByRank(member: string) returns (idx: int)
      modifies this`elems
      ensures multiset(elems) == multiset(old(elems))
      ensures idx == -1 <==> forall k :: 0 <= k < |old(elems)| ==> old(elems)[k].member != member
      ensures idx >= 0 ==> exists k :: 0 <= k < |old(elems)| && old(elems)[k].member == member
                                       && (OneKind(old(elems)) ==> idx == CountLess(old(elems), old(elems)[k]))
    {
      ghost var orig := elems;
      ghost var hit: SetMember := SetMember([], RegularSetScore(0.0));
      idx := -1;
      var popped: seq<SetMember> := [];
      var i := 0;
      while |elems| > 0
        invariant idx == -1
        invariant multiset(popped) + multiset(elems) == multiset(orig)
        invariant i == |popped|
        invariant forall p :: p in popped ==> p.member != member
        invariant forall p, e :: p in popped && e in elems ==> !MemberLess(e, p)
        decreases |elems|
      {
        ghost var before := elems;
        var e := HeapPop();
        if e.member == member {
          if OneKind(orig) {
            RankOfFound(orig, popped, before, e);
          } else {
            assert e in multiset(orig);
          }
          hit := e;
          popped := popped + [e];
          idx := i;
          break;
        }
        PoppedInvariant(popped, before, elems, e);
        popped := popped + [e];
        i := i + 1;
      }
      if idx == -1 {
        NoneNamed(orig, popped, member);
      } else {
        ghost var k :| 0 <= k < |orig| && orig[k] == hit;
      }
      PushAll(popped);
    }

    /** heap.Push of each element in turn. */
    method PushAll(xs: seq<SetMember>)
      modifies this`elems
      ensures multiset(elems) == multiset(old(elems)) + multiset(xs)
    {
      var j := 0;
      while j < |xs|
        invariant 0 <= j <= |xs|
        invariant multiset(elems) == multiset(old(elems)) + multiset(xs[..j])
      {
        HeapPush(xs[j]);
        assert xs[..j + 1] == xs[..j] + [xs[j]];
        j := j + 1;
      }
      assert xs[..j] == xs;
    }
  }

  /** When every element was popped and none had the name, no element has it. */
  lemma NoneNamed(orig: seq<SetMember>, popped: seq<SetMember>, member: string)
    requires multiset(popped) == multiset(orig)
    requires forall p :: p in popped ==> p.member != member
    ensures forall k :: 0 <= k < |orig| ==> orig[k].member != member
  {
    forall k | 0 <= k < |orig|
      ensures orig[k].member != member
    {
      assert orig[k] in multiset(orig);
    }
  }

  /** One more popped element keeps the loop's facts about what was popped. */
  lemma PoppedInvariant(popped: seq<SetMember>, before: seq<SetMember>, after: seq<SetMember>, e: SetMember)
    requires forall p, x :: p in popped && x in before ==> !MemberLess(x, p)
    requires multiset(after) + multiset{e} == multiset(before)
    requires forall x :: x in before ==> !MemberLess(x, e)
    ensures forall p, x :: p in popped + [e] && x in after ==> !MemberLess(x, p)
  {
    forall p, x | p in popped + [e] && x in after
      ensures !MemberLess(x, p)
    {
      assert x in multiset(before);
    }
  }

  /**
   * When the popped element is the first with the name, exactly the
   * elements popped before it are Less than it.
   */
  lemma RankOfFound(orig: seq<SetMember>, popped: seq<SetMember>, before: seq<SetMember>, e: SetMember)
    requires OneKind(orig)
    requires multiset(popped) + multiset(before) == multiset(orig)
    requires forall p :: p in popped ==> p.member != e.member
    requires forall p, x :: p in popped && x in before ==> !MemberLess(x, p)
    requires e in before
    requires forall x :: x in before ==> !MemberLess(x, e)
    ensures e in orig && CountLess(orig, e) == |popped|
  {
    assert e in multiset(orig);
    forall p | p in popped
      ensures MemberLess(p, e)
    {
      assert p in multiset(orig);
      var a :| 0 <= a < |orig| && orig[a] == p;
      var b :| 0 <= b < |orig| && orig[b] == e;
      MemberLessTotal(p, e);
    }
    CountLessAll(popped, e);
    CountLessNone(before, e);
    assert multiset(popped + before) == multiset(orig);
    CountLessPermutation(popped + before, orig, e);
    CountLessAppend(popped, before, e);
  }
}
