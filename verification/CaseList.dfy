/** The select cases of a feed: one backing array seen through two slices, the full list and the prefix that a
    running Send still has to serve. */
module CaseLists {
  /** A subscriber's channel. Channel 0 is the feed's own removeSub channel, always in slot 0. */
  type Chan = nat

  const REMOVE_SUB: Chan := 0
  const FIRST_SUB := 1

  function Deleted(s: seq<Chan>, i: nat): seq<Chan>
    requires i < |s|
  {
    s[..i] + s[i + 1..]
  }

  function Swapped(s: seq<Chan>, i: nat, j: nat): seq<Chan>
    requires i < |s| && j < |s|
  {
    s[i := s[j]][j := s[i]]
  }

  /** The first position of ch, or -1. */
  function Find(s: seq<Chan>, ch: Chan): (i: int)
    ensures -1 <= i < |s|
    ensures i == -1 <==> ch !in s
    ensures i >= 0 ==> s[i] == ch && ch !in s[..i]
  {
    if s == [] then -1
    else if s[0] == ch then 0
    else
      var rest := Find(s[1..], ch);
      assert rest >= 0 ==> s[..rest + 1] == [s[0]] + s[1..][..rest];
      if rest == -1 then -1 else rest + 1
  }

  /** append(cs[:index], cs[index+1:]...) within one backing array */
  method DeleteInPlace(cs: array<Chan>, count: nat, index: nat)
    requires index < count <= cs.Length
    modifies cs
    ensures cs[..count - 1] == Deleted(old(cs[..count]), index)
    ensures cs[..index] == old(cs[..index])
  {
    for i := index to count - 1
      invariant forall k | 0 <= k < index :: cs[k] == old(cs[k])
      invariant forall k | index <= k < i :: cs[k] == old(cs[k + 1])
      invariant forall k | i <= k < count :: cs[k] == old(cs[k])
    {
      cs[i] := cs[i + 1];
    }
  }

  lemma FindFirst(s: seq<Chan>, ch: Chan, i: nat)
    requires i < |s| && s[i] == ch && ch !in s[..i]
    ensures Find(s, ch) == i
  {
    assert forall k | 0 <= k < i :: s[..i][k] == s[k];
  }

  class CaseList {
    var backing: array<Chan>
    var count: nat   // length of f.sendCases
    var active: nat  // length of the prefix `cases`

    ghost predicate Valid()
      reads this
    {
      FIRST_SUB <= active <= count <= backing.Length
    }

    /** f.sendCases */
    ghost function SendCases(): seq<Chan>
      requires Valid()
      reads this, backing
    {
      backing[..count]
    }

    /** The local variable `cases` of Send, an alias of the front of f.sendCases. */
    ghost function Cases(): seq<Chan>
      requires Valid()
      reads this, backing
    {
      backing[..active]
    }

    constructor (initial: seq<Chan>)
      requires |initial| >= FIRST_SUB
      ensures Valid() && fresh(backing)
      ensures SendCases() == Cases() == initial
    {
      count, active := |initial|, |initial|;
      backing := new Chan[|initial|](i requires 0 <= i < |initial| => initial[i]);
    }

    /** caseList.find on the full list */
    method FindCase(ch: Chan) returns (index: int)
      requires Valid()
      ensures index == Find(SendCases(), ch)
    {
      for i := 0 to count
        invariant ch !in SendCases()[..i]
      {
        if backing[i] == ch {
          FindFirst(SendCases(), ch, i);
          return i;
        }
      }
      assert SendCases()[..count] == SendCases();
      index := -1;
    }

    /** caseList.deactivate: swap the case to the end of the prefix and shrink the prefix. The full list sees the
        swap. */
    method Deactivate(index: nat)
      requires Valid() && FIRST_SUB <= index < active
      modifies backing, `active
      ensures Valid() && active == old(active) - 1
      ensures SendCases() == Swapped(old(SendCases()), index, old(active) - 1)
      ensures Cases() == SendCases()[..active]
    {
      var last := active - 1;
      backing[index], backing[last] := backing[last], backing[index];
      active := last;
    }

    /** The removal branch of Send: delete shifts the tail of the full list in place; the prefix shrinks only if
        the deleted case was in it, and otherwise still shows the same cases. */
    method Remove(index: nat)
      requires Valid() && FIRST_SUB <= index < count
      modifies backing, `active, `count
      ensures Valid() && backing == old(backing)
      ensures SendCases() == Deleted(old(SendCases()), index)
      ensures active == if index < old(active) then old(active) - 1 else old(active)
      ensures index >= old(active) ==> Cases() == old(Cases())
    {
      DeleteInPlace(backing, count, index);
      count := count - 1;
      if index < active {
        active := active - 1;
      }
    }
  }
}
