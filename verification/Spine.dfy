/** A stack that keeps its first sixteen entries in a fixed array and spills to the heap. */
module Spine {

  import opened Common

  const INLINE_CAP: nat := 16

  function Reverse<T>(s: seq<T>): (r: seq<T>)
    ensures |r| == |s|
  {
    if s == [] then [] else Reverse(s[1..]) + [s[0]]
  }

  lemma {:induction false} ReverseAt<T>(s: seq<T>, k: nat)
    requires k < |s|
    ensures Reverse(s)[k] == s[|s| - 1 - k]
  {
    if k < |s| - 1 { ReverseAt(s[1..], k); }
  }

  class ChainSpine<T> {
    const slots: array<Option<T>>
    var len: nat
    var spilled: seq<T>

    /** Once entries have spilled, none are left in the array. */
    ghost predicate Valid()
      reads this, slots
    {
      && slots.Length == INLINE_CAP && len <= INLINE_CAP
      && (forall i :: 0 <= i < len ==> slots[i].Some?)
      && (spilled != [] ==> len == 0)
    }

    /** The entries, oldest first. */
    ghost function Contents(): seq<T>
      reads this, slots
      requires Valid()
    {
      seq(len, i requires 0 <= i < len reads this, slots requires Valid() => slots[i].value) + spilled
    }

    constructor ()
      ensures Valid() && Contents() == [] && fresh(slots)
    {
      slots := new Option<T>[INLINE_CAP](_ => None);
      len := 0;
      spilled := [];
    }

    method Push(item: T)
      requires Valid()
      modifies this, slots
      ensures Valid() && Contents() == old(Contents()) + [item]
    {
      if spilled == [] && len < INLINE_CAP {
        slots[len] := Some(item);
        len := len + 1;
      } else {
        if spilled == [] {
          var taken: seq<T> := [];
          for i := 0 to len
            invariant taken == old(Contents())[..i]
            invariant len == old(len) && spilled == []
            invariant forall j :: i <= j < len ==> slots[j] == old(slots[j])
          {
            taken := taken + [slots[i].value];
            slots[i] := None;
          }
          spilled := taken;
          len := 0;
        }
        spilled := spilled + [item];
      }
    }

    /** Takes the most recently pushed entry. */
    method Pop() returns (r: Option<T>)
      requires Valid()
      modifies this, slots
      ensures Valid()
      ensures old(Contents()) == [] ==> r == None && Contents() == []
      ensures old(Contents()) != [] ==> r.Some? && old(Contents()) == Contents() + [r.value]
    {
      if spilled != [] {
        r := Some(spilled[|spilled|-1]);
        spilled := spilled[..|spilled|-1];
        return;
      }
      if len == 0 { return None; }
      len := len - 1;
      r := slots[len];
      slots[len] := None;
    }

    /** Takes the `n` most recent entries, handed back in the order they were pushed. */
    method PopN(n: nat) returns (out: seq<T>)
      requires Valid() && n <= |Contents()|
      modifies this, slots
      ensures Valid() && |out| == n && old(Contents()) == Contents() + out
    {
      ghost var all := Contents();
      var taken: seq<T> := [];
      for i := 0 to n
        invariant Valid() && |taken| == i && |Contents()| + i == |all| && all == Contents() + Reverse(taken)
      {
        ghost var before := Contents();
        var item := Pop();
        assert before + Reverse(taken) == Contents() + ([item.value] + Reverse(taken));
        ReverseAppend(taken, item.value);
        taken := taken + [item.value];
      }
      out := Reverse(taken);
    }

    method IsEmpty() returns (b: bool)
      requires Valid()
      ensures b <==> Contents() == []
    {
      b := spilled == [] && len == 0;
    }

    /** Hands the entries to `f`, newest first, until it says stop; `seen` is what it was handed. */
    method FoldRevUntil(f: T -> bool) returns (seen: seq<T>)
      requires Valid()
      ensures seen <= Reverse(Contents())
      ensures forall k :: 0 <= k < |seen| - 1 ==> f(seen[k])
      ensures |seen| < |Contents()| ==> seen != [] && !f(seen[|seen|-1])
    {
      seen := [];
      var n := len + |spilled|;
      ghost var all := Contents();
      while |seen| < n
        invariant |seen| <= n && seen == Reverse(all)[..|seen|]
        invariant forall k :: 0 <= k < |seen| ==> f(seen[k])
      {
        var k := |seen|;
        var item := if k < |spilled| then spilled[|spilled| - 1 - k] else slots[len - 1 - (k - |spilled|)].value;
        ReverseAt(all, k);
        seen := seen + [item];
        if !f(item) { return; }
      }
    }
  }

  lemma {:induction false} ReverseAppend<T>(s: seq<T>, x: T)
    ensures Reverse(s + [x]) == [x] + Reverse(s)
  {
    if s == [] {
      assert Reverse([x]) == Reverse([x][1..]) + [x];
    } else {
      assert (s + [x])[1..] == s[1..] + [x];
      ReverseAppend(s[1..], x);
    }
  }
}
