/**
 * The two list edits both step editors perform on their ordered list of steps:
 * removal by position (`steps.filter((_, i) => i !== index)`) and the
 * drag-and-drop move (`splice` the item out, `splice` it back in elsewhere).
 * Both are generic in the record type; renumbering is the caller's business.
 */
module Ledger {

  /** `s.filter((_, i) => i !== index)`: keeps every element whose position is not `index`. */
  function Without<T>(s: seq<T>, index: int): (r: seq<T>)
    ensures |r| <= |s|
    decreases |s|
  {
    if s == [] then [] else (if index == 0 then [] else [s[0]]) + Without(s[1..], index - 1)
  }

  /** Removing position `index` drops exactly that element and keeps the rest in order;
      a position outside the list removes nothing. */
  lemma {:induction false} WithoutShape<T>(s: seq<T>, index: int)
    ensures Without(s, index) == if 0 <= index < |s| then s[..index] + s[index + 1..] else s
    decreases |s|
  {
    if s != [] {
      WithoutShape(s[1..], index - 1);
      if 0 < index < |s| {
        assert s[1..][..index - 1] == s[1..index];
        assert s[1..][index..] == s[index + 1..];
        assert [s[0]] + s[1..index] == s[..index];
      } else if index != 0 {
        assert [s[0]] + s[1..] == s;
      }
    }
  }

  /** Where `splice(dst, 0, item)` puts the item once it has been taken out of a list of
      length `n`: at `dst`, or at the end when `dst` is past it. */
  function Slot(n: nat, dst: nat): (k: nat)
    requires n > 0
    ensures k < n
    ensures dst < n ==> k == dst
    ensures dst >= n ==> k == n - 1
  {
    if dst <= n - 1 then dst else n - 1
  }

  /** `items.splice(src, 1)` then `items.splice(dst, 0, removed)` on a copy of `s`. */
  function Move<T>(s: seq<T>, src: nat, dst: nat): (r: seq<T>)
    requires src < |s|
    ensures |r| == |s|
    ensures r[Slot(|s|, dst)] == s[src]
    ensures multiset(r) == multiset(s)
    ensures r[..Slot(|s|, dst)] + r[Slot(|s|, dst) + 1..] == s[..src] + s[src + 1..]
  {
    var rest := s[..src] + s[src + 1..];
    var k := Slot(|s|, dst);
    var r := rest[..k] + [s[src]] + rest[k..];
    assert s == s[..src] + [s[src]] + s[src + 1..];
    assert rest == rest[..k] + rest[k..];
    assert r[..k] == rest[..k] && r[k + 1..] == rest[k..];
    assert multiset(r) == multiset(rest[..k]) + multiset([s[src]]) + multiset(rest[k..]);
    assert multiset(s) == multiset(s[..src]) + multiset([s[src]]) + multiset(s[src + 1..]);
    assert multiset(rest) == multiset(s[..src]) + multiset(s[src + 1..]);
    assert multiset(rest) == multiset(rest[..k]) + multiset(rest[k..]);
    assert multiset(r) == multiset(rest) + multiset([s[src]]);
    assert multiset(s) == multiset(rest) + multiset([s[src]]);
    r
  }

  /** Dropping an item where it already is changes nothing. */
  lemma MoveInPlace<T>(s: seq<T>, i: nat)
    requires i < |s|
    ensures Move(s, i, i) == s
  {
    var r := Move(s, i, i);
    assert r[..i] + r[i + 1..] == s[..i] + s[i + 1..];
    assert r[..i] == s[..i];
    assert r[i + 1..] == s[i + 1..];
    assert r == r[..i] + [r[i]] + r[i + 1..];
    assert s == s[..i] + [s[i]] + s[i + 1..];
  }

  /** A list is its own remainder around position `k` with the element at `k` put back. */
  lemma Reassemble<T>(t: seq<T>, k: nat)
    requires k < |t|
    ensures t == (t[..k] + t[k + 1..])[..k] + [t[k]] + (t[..k] + t[k + 1..])[k..]
  {
    var rest := t[..k] + t[k + 1..];
    assert rest[..k] == t[..k];
    assert rest[k..] == t[k + 1..];
    assert t == t[..k] + [t[k]] + t[k + 1..];
  }

  /** Dragging the moved item back from where it landed restores the original list. */
  lemma MoveUndo<T>(s: seq<T>, src: nat, dst: nat)
    requires src < |s|
    ensures Move(Move(s, src, dst), Slot(|s|, dst), src) == s
  {
    var k := Slot(|s|, dst);
    var back := Move(Move(s, src, dst), k, src);
    assert Slot(|s|, src) == src;
    Reassemble(back, src);
    Reassemble(s, src);
  }

  /** Where the element at position `i` of a moved list came from, when the item taken
      from `src` landed at `k`. */
  function Origin(src: nat, k: nat, i: nat): nat {
    if i == k then src
    else
      var j := if i < k then i else i - 1;
      if j < src then j else j + 1
  }

  /** The moved list, position by position. */
  lemma MoveAt<T>(s: seq<T>, src: nat, dst: nat, i: nat)
    requires src < |s| && i < |s|
    ensures Origin(src, Slot(|s|, dst), i) < |s|
    ensures Move(s, src, dst)[i] == s[Origin(src, Slot(|s|, dst), i)]
  {
    var k := Slot(|s|, dst);
    var r := Move(s, src, dst);
    var rest := s[..src] + s[src + 1..];
    assert r[..k] + r[k + 1..] == rest;
    if i < k {
      assert r[i] == (r[..k] + r[k + 1..])[i];
    } else if i > k {
      assert r[i] == (r[..k] + r[k + 1..])[i - 1];
    }
  }

  /** `xs.map(f)`. */
  function Map<T, U>(f: T -> U, s: seq<T>): (r: seq<U>)
    ensures |r| == |s|
    ensures forall i :: 0 <= i < |s| ==> r[i] == f(s[i])
  {
    seq(|s|, i requires 0 <= i < |s| => f(s[i]))
  }

  /** Moving commutes with rewriting every element the same way. */
  lemma MoveMap<T, U>(f: T -> U, s: seq<T>, src: nat, dst: nat)
    requires src < |s|
    ensures Move(Map(f, s), src, dst) == Map(f, Move(s, src, dst))
  {
    var a := Move(Map(f, s), src, dst);
    var b := Map(f, Move(s, src, dst));
    forall i | 0 <= i < |s| ensures a[i] == b[i] {
      MoveAt(Map(f, s), src, dst, i);
      MoveAt(s, src, dst, i);
    }
  }
}
