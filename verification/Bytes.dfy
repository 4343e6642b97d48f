/** Byte strings under lexicographic order, the order every stored key is compared in. */
module Bytes {

  type byte = b: int | 0 <= b < 256

  datatype Option<+T> = None | Some(value: T)

  datatype SortOrder = Asc | Desc

  /** Three-way lexicographic comparison: -1, 0 or 1. */
  function Cmp(a: seq<byte>, b: seq<byte>): (r: int)
    ensures r == 0 <==> a == b
    ensures -1 <= r <= 1
  {
    if a == [] then if b == [] then 0 else -1
    else if b == [] then 1
    else if a[0] < b[0] then -1
    else if a[0] > b[0] then 1
    else
      assert a == [a[0]] + a[1..] && b == [b[0]] + b[1..];
      Cmp(a[1..], b[1..])
  }

  function Sign(x: int): (r: int) {
    if x < 0 then -1 else if x > 0 then 1 else 0
  }

  /** Complements every byte: how descending columns are stored. */
  function Flip(s: seq<byte>): (r: seq<byte>)
    ensures |r| == |s|
    ensures forall i :: 0 <= i < |s| ==> r[i] == 255 - s[i]
  {
    if s == [] then [] else [255 - s[0]] + Flip(s[1..])
  }

  lemma FlipFlip(s: seq<byte>)
    ensures Flip(Flip(s)) == s
  {
  }

  lemma CmpHead(c: byte, d: byte, x: seq<byte>, y: seq<byte>)
    ensures Cmp([c] + x, [d] + y) == if c < d then -1 else if c > d then 1 else Cmp(x, y)
  {
    assert ([c] + x)[1..] == x && ([d] + y)[1..] == y;
  }

  lemma {:induction false} CmpPrefix(p: seq<byte>, x: seq<byte>, y: seq<byte>)
    ensures Cmp(p + x, p + y) == Cmp(x, y)
  {
    if p == [] {
      assert p + x == x && p + y == y;
    } else {
      assert p + x == [p[0]] + (p[1..] + x) && p + y == [p[0]] + (p[1..] + y);
      CmpHead(p[0], p[0], p[1..] + x, p[1..] + y);
      CmpPrefix(p[1..], x, y);
    }
  }

  /** Strings of one length decide a comparison before anything after them does. */
  lemma {:induction false} CmpSameLength(a: seq<byte>, b: seq<byte>, x: seq<byte>, y: seq<byte>)
    requires |a| == |b|
    ensures Cmp(a + x, b + y) == if a == b then Cmp(x, y) else Cmp(a, b)
  {
    if a == [] {
      assert a + x == x && b + y == y;
    } else {
      assert a + x == [a[0]] + (a[1..] + x) && b + y == [b[0]] + (b[1..] + y);
      CmpHead(a[0], b[0], a[1..] + x, b[1..] + y);
      CmpSameLength(a[1..], b[1..], x, y);
      assert a == [a[0]] + a[1..] && b == [b[0]] + b[1..];
    }
  }

  lemma {:induction false} CmpFlip(a: seq<byte>, b: seq<byte>)
    requires |a| == |b|
    ensures Cmp(Flip(a), Flip(b)) == -Cmp(a, b)
  {
    if a != [] {
      CmpFlip(a[1..], b[1..]);
      assert Flip(a)[1..] == Flip(a[1..]) && Flip(b)[1..] == Flip(b[1..]);
    }
  }

  lemma CmpSelf(a: seq<byte>)
    ensures Cmp(a, a) == 0
  {
  }

  lemma {:induction false} CmpAntisymmetric(a: seq<byte>, b: seq<byte>)
    ensures Cmp(b, a) == -Cmp(a, b)
  {
    if a != [] && b != [] { CmpAntisymmetric(a[1..], b[1..]); }
  }

  lemma {:induction false} CmpTransitive(a: seq<byte>, b: seq<byte>, c: seq<byte>)
    requires Cmp(a, b) <= 0 && Cmp(b, c) <= 0
    ensures Cmp(a, c) <= 0
    ensures Cmp(a, c) == 0 ==> a == b
  {
    if a != [] && b != [] && c != [] && a[0] == b[0] == c[0] {
      CmpTransitive(a[1..], b[1..], c[1..]);
      assert a == [a[0]] + a[1..] && b == [b[0]] + b[1..];
    }
  }

  function Ascs(n: nat): (r: seq<SortOrder>)
    ensures |r| == n
  {
    seq(n, _ => Asc)
  }

  // ----- Fixed-width integers

  function Pow256(n: nat): (r: nat)
    ensures r > 0
  {
    if n == 0 then 1 else 256 * Pow256(n - 1)
  }

  lemma PowConstants()
    ensures Pow256(1) == 0x100 && Pow256(2) == 0x1_0000 && Pow256(4) == 0x1_0000_0000
    ensures Pow256(8) == 0x1_0000_0000_0000_0000
  {
    assert Pow256(2) == 256 * Pow256(1);
    assert Pow256(4) == 256 * (256 * Pow256(2));
    assert Pow256(6) == 256 * (256 * Pow256(4));
    assert Pow256(8) == 256 * (256 * Pow256(6));
  }

  /** `n` bytes of `x`, most significant first, truncated to width as a Rust cast does. */
  function Be(n: nat, x: int): (r: seq<byte>)
    ensures |r| == n
    decreases n, x
  {
    if n == 0 then [] else Be(n - 1, x / 256) + [x % 256]
  }

  function UnBe(s: seq<byte>): (r: nat)
  {
    if s == [] then 0 else UnBe(s[..|s| - 1]) * 256 + s[|s| - 1]
  }

  lemma {:induction false} UnBeBe(n: nat, x: nat)
    requires x < Pow256(n)
    ensures UnBe(Be(n, x)) == x
  {
    if n > 0 {
      UnBeBe(n - 1, x / 256);
      assert Be(n, x)[..n - 1] == Be(n - 1, x / 256);
    }
  }

  lemma {:induction false} BeUnBe(s: seq<byte>)
    ensures UnBe(s) < Pow256(|s|)
    ensures Be(|s|, UnBe(s)) == s
  {
    if s != [] {
      BeUnBe(s[..|s| - 1]);
      assert s == s[..|s| - 1] + [s[|s| - 1]];
    }
  }

  lemma {:induction false} BeOrder(n: nat, a: nat, b: nat, x: seq<byte>, y: seq<byte>)
    requires a < Pow256(n) && b < Pow256(n)
    ensures Cmp(Be(n, a) + x, Be(n, b) + y) == if a == b then Cmp(x, y) else Sign(a - b)
  {
    if n == 0 {
      assert [] + x == x && [] + y == y;
    } else {
      var x', y' := [a % 256] + x, [b % 256] + y;
      assert Be(n, a) + x == Be(n - 1, a / 256) + x';
      assert Be(n, b) + y == Be(n - 1, b / 256) + y';
      BeOrder(n - 1, a / 256, b / 256, x', y');
      CmpHead(a % 256, b % 256, x, y);
    }
  }

  lemma {:induction false} FlipBe(n: nat, x: nat)
    requires x < Pow256(n)
    ensures Flip(Be(n, x)) == Be(n, Pow256(n) - 1 - x)
  {
    if n > 0 {
      var p := Pow256(n - 1);
      assert Pow256(n) - 1 - x == 256 * (p - 1 - x / 256) + (255 - x % 256);
      assert (Pow256(n) - 1 - x) / 256 == p - 1 - x / 256;
      FlipBe(n - 1, x / 256);
      FlipConcat(Be(n - 1, x / 256), [x % 256]);
    }
  }

  lemma FlipConcat(a: seq<byte>, b: seq<byte>)
    ensures Flip(a + b) == Flip(a) + Flip(b)
  {
  }

  /** `n` bytes of `x`, least significant first. */
  function Le(n: nat, x: int): (r: seq<byte>)
    ensures |r| == n
    decreases n, x
  {
    if n == 0 then [] else [x % 256] + Le(n - 1, x / 256)
  }

  function UnLe(s: seq<byte>): (r: nat)
  {
    if s == [] then 0 else s[0] + 256 * UnLe(s[1..])
  }

  lemma {:induction false} UnLeLe(n: nat, x: nat)
    requires x < Pow256(n)
    ensures UnLe(Le(n, x)) == x
  {
    if n > 0 { UnLeLe(n - 1, x / 256); }
  }

  // ----- Ascending lists of keys

  ghost predicate Ascending(s: seq<seq<byte>>) {
    forall i, j :: 0 <= i < j < |s| ==> Cmp(s[i], s[j]) < 0
  }

  function InsertKey(k: seq<byte>, s: seq<seq<byte>>): (r: seq<seq<byte>>) {
    if s == [] then [k]
    else if Cmp(k, s[0]) < 0 then [k] + s
    else [s[0]] + InsertKey(k, s[1..])
  }

  lemma {:induction false} InsertKeyAscending(k: seq<byte>, s: seq<seq<byte>>)
    requires Ascending(s) && k !in s
    ensures Ascending(InsertKey(k, s))
    ensures forall x :: x in InsertKey(k, s) <==> x == k || x in s
  {
    if s != [] {
      if Cmp(k, s[0]) < 0 {
        forall j | 0 <= j < |s| ensures Cmp(k, s[j]) < 0 {
          if j > 0 { CmpTransitive(k, s[0], s[j]); }
        }
      } else {
        InsertKeyAscending(k, s[1..]);
        var r := InsertKey(k, s[1..]);
        CmpAntisymmetric(k, s[0]);
        forall j | 0 <= j < |r| ensures Cmp(s[0], r[j]) < 0 {
          assert r[j] in r;
        }
        assert s == [s[0]] + s[1..];
      }
    }
  }

  /** The keys of a set in ascending order: what a database iterator walks. */
  ghost function SortedKeys(keys: set<seq<byte>>): (r: seq<seq<byte>>)
  {
    if keys == {} then []
    else var k :| k in keys; InsertKey(k, SortedKeys(keys - {k}))
  }

  lemma {:induction false} SortedKeysAscending(keys: set<seq<byte>>)
    ensures Ascending(SortedKeys(keys))
    ensures forall x :: x in SortedKeys(keys) <==> x in keys
  {
    if keys != {} {
      var k :| k in keys && SortedKeys(keys) == InsertKey(k, SortedKeys(keys - {k}));
      SortedKeysAscending(keys - {k});
      InsertKeyAscending(k, SortedKeys(keys - {k}));
    }
  }

  /** An ascending list is determined by its elements. */
  lemma {:induction false} AscendingUnique(s: seq<seq<byte>>, t: seq<seq<byte>>)
    requires Ascending(s) && Ascending(t)
    requires forall x :: x in s <==> x in t
    ensures s == t
  {
    if s == [] {
      if t != [] { var x := AnElement(t); }
    } else {
      assert s[0] in t && t != [] && t[0] in s;
      LeastFirst(s, t[0]);
      LeastFirst(t, s[0]);
      CmpAntisymmetric(s[0], t[0]);
      assert s[0] == t[0];
      forall x ensures x in s[1..] <==> x in t[1..] {
        RestOf(s, x);
        RestOf(t, x);
      }
      AscendingUnique(s[1..], t[1..]);
      assert s == [s[0]] + s[1..] && t == [t[0]] + t[1..];
    }
  }

  lemma AnElement(s: seq<seq<byte>>) returns (x: seq<byte>)
    requires s != []
    ensures x in s
  {
    x := s[0];
  }

  lemma LeastFirst(s: seq<seq<byte>>, x: seq<byte>)
    requires Ascending(s) && x in s
    ensures Cmp(s[0], x) <= 0
  {
    var i :| 0 <= i < |s| && s[i] == x;
  }

  lemma RestOf(s: seq<seq<byte>>, x: seq<byte>)
    requires Ascending(s) && s != []
    ensures x in s[1..] <==> x in s && x != s[0]
  {
    if x in s[1..] {
      var i :| 0 <= i < |s| - 1 && s[1..][i] == x;
      assert s[i + 1] == x && Cmp(s[0], s[i + 1]) < 0;
    }
  }
}
