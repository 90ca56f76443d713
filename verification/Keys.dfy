/** Maildir keys: their byte-wise order, the sorted listing of a set of keys, and the name layout that
    is meant to make that order the order of delivery. */
module Keys {

  type Key = string

  /** The text of one message. */
  type Body = string

  /** Go's `<` on strings: byte-wise lexicographic order. */
  predicate Less(a: Key, b: Key) {
    b != [] && (a == [] || a[0] < b[0] || (a[0] == b[0] && Less(a[1..], b[1..])))
  }

  lemma {:induction false} LessTransitive(a: Key, b: Key, c: Key)
    requires Less(a, b) && Less(b, c)
    ensures Less(a, c)
  {
    if a != [] && a[0] == b[0] == c[0] {
      LessTransitive(a[1..], b[1..], c[1..]);
    }
  }

  lemma {:induction false} LessTotal(a: Key, b: Key)
    ensures Less(a, b) || Less(b, a) || a == b
    ensures !(Less(a, b) && Less(b, a)) && !Less(a, a)
  {
    if a != [] && b != [] && a[0] == b[0] {
      LessTotal(a[1..], b[1..]);
      assert a == [a[0]] + a[1..] && b == [b[0]] + b[1..];
    }
    if a != [] { LessTotal(a[1..], a[1..]); }
  }

  ghost predicate Ascending(keys: seq<Key>) {
    forall i, j :: 0 <= i < j < |keys| ==> Less(keys[i], keys[j])
  }

  predicate IsFirst(k: Key, s: set<Key>) {
    k in s && forall j :: j in s && j != k ==> Less(k, j)
  }

  lemma FirstExists(s: set<Key>)
    requires s != {}
    ensures exists k :: IsFirst(k, s)
  {
    var k :| k in s;
    if s != {k} {
      FirstExists(s - {k});
      var m :| IsFirst(m, s - {k});
      LessTotal(k, m);
      if Less(k, m) {
        forall j | j in s && j != k ensures Less(k, j) {
          if j != m { LessTransitive(k, m, j); }
        }
        assert IsFirst(k, s);
      } else {
        assert IsFirst(m, s);
      }
    } else {
      assert IsFirst(k, s);
    }
  }

  lemma FirstUnique(s: set<Key>, a: Key, b: Key)
    requires IsFirst(a, s) && IsFirst(b, s)
    ensures a == b
  {
    LessTotal(a, b);
  }

  /** The members of `s` in ascending order: what reading a directory and sorting gives. */
  function Sorted(s: set<Key>): (keys: seq<Key>)
    ensures |keys| == |s| && forall k :: k in keys <==> k in s
    ensures Ascending(keys)
  {
    if s == {} then [] else
      FirstExists(s);
      assert forall a, b :: IsFirst(a, s) && IsFirst(b, s) ==> a == b by {
        forall a, b | IsFirst(a, s) && IsFirst(b, s) ensures a == b { FirstUnique(s, a, b); }
      }
      var k :| IsFirst(k, s);
      [k] + Sorted(s - {k})
  }

  // ---------- names that sort by delivery time ----------

  function Digit(d: nat): char
    requires d < 10
  {
    '0' + d as char
  }

  function Pow10(n: nat): nat {
    if n == 0 then 1 else 10 * Pow10(n - 1)
  }

  /** `%0<width>d`: zero-padded decimal, exact as long as `n` has at most `width` digits. */
  function Padded(n: nat, width: nat): (s: string)
    requires n < Pow10(width)
    ensures |s| == width
  {
    if width == 0 then ""
    else Padded(n / 10, width - 1) + [Digit(n % 10)]
  }

  lemma LessByPrefix(a: string, b: string, x: string, y: string)
    requires |a| == |b| && Less(a, b)
    ensures Less(a + x, b + y)
  {
    assert (a + x)[0..] == a + x;
    if a[0] == b[0] {
      assert (a + x)[1..] == a[1..] + x && (b + y)[1..] == b[1..] + y;
      LessByPrefix(a[1..], b[1..], x, y);
    }
  }

  lemma LessAfterPrefix(p: string, x: string, y: string)
    ensures Less(p + x, p + y) <==> Less(x, y)
  {
    if p == [] {
      assert p + x == x && p + y == y;
    } else {
      assert (p + x)[1..] == p[1..] + x && (p + y)[1..] == p[1..] + y;
      LessAfterPrefix(p[1..], x, y);
    }
  }

  /** Among numbers that fit the width, the padded strings sort as the numbers do. */
  lemma {:induction false} PaddedOrder(m: nat, n: nat, width: nat)
    requires m < Pow10(width) && n < Pow10(width)
    ensures Less(Padded(m, width), Padded(n, width)) <==> m < n
    ensures Padded(m, width) == Padded(n, width) <==> m == n
  {
    if width > 0 {
      PaddedOrder(m / 10, n / 10, width - 1);
      var a, b := Padded(m / 10, width - 1), Padded(n / 10, width - 1);
      if m / 10 < n / 10 {
        LessByPrefix(a, b, [Digit(m % 10)], [Digit(n % 10)]);
        LessTotal(a + [Digit(m % 10)], b + [Digit(n % 10)]);
      } else if m / 10 > n / 10 {
        LessTotal(a, b);
        LessByPrefix(b, a, [Digit(n % 10)], [Digit(m % 10)]);
        LessTotal(a + [Digit(m % 10)], b + [Digit(n % 10)]);
      } else {
        LessAfterPrefix(a, [Digit(m % 10)], [Digit(n % 10)]);
        assert (a + [Digit(m % 10)])[width - 1] == Digit(m % 10);
        assert (a + [Digit(n % 10)])[width - 1] == Digit(n % 10);
      }
    }
  }

  const NANO_DIGITS := 20
  const INT64_MAX: nat := 0x7FFF_FFFF_FFFF_FFFF

  lemma NanosFit(nanos: nat)
    requires nanos <= INT64_MAX
    ensures nanos < Pow10(NANO_DIGITS)
  {
    assert Pow10(10) == 10_000_000_000;
    assert Pow10(15) == 1_000_000_000_000_000;
    assert Pow10(20) == 100_000_000_000_000_000_000;
  }

  /** What a unique name says about the process, after its random part. */
  datatype Origin = Origin(pid: string, counter: string, host: string) {
    function Text(): string {
      pid + "_" + counter + "." + host
    }
  }

  /** The layout of `uniqueName`: time, then random hex, then process id, counter and host. */
  function UniqueName(nanos: nat, randomHex: string, origin: Origin): Key
    requires nanos <= INT64_MAX
  {
    NanosFit(nanos);
    Padded(nanos, NANO_DIGITS) + ("." + (randomHex + origin.Text()))
  }

  /** Names made at different instants sort by instant, whatever follows the time. */
  lemma NamesSortByTime(m: nat, r: string, o: Origin, n: nat, r': string, o': Origin)
    requires m <= INT64_MAX && n <= INT64_MAX && m != n
    ensures Less(UniqueName(m, r, o), UniqueName(n, r', o')) <==> m < n
  {
    NanosFit(m);
    NanosFit(n);
    var a, b := Padded(m, NANO_DIGITS), Padded(n, NANO_DIGITS);
    PaddedOrder(m, n, NANO_DIGITS);
    PaddedOrder(n, m, NANO_DIGITS);
    var x, y := "." + (r + o.Text()), "." + (r' + o'.Text());
    if m < n { LessByPrefix(a, b, x, y); } else { LessByPrefix(b, a, y, x); }
    LessTotal(a + x, b + y);
  }

  /** Within one nanosecond the random part decides, not the counter: two names whose random parts
      differ sort as those parts do, whichever was made first. */
  lemma SameInstantSortsByRandomPart(n: nat, r: string, o: Origin, r': string, o': Origin)
    requires n <= INT64_MAX && |r| == |r'| && r != r'
    ensures Less(UniqueName(n, r, o), UniqueName(n, r', o')) <==> Less(r, r')
  {
    NanosFit(n);
    var x, y := r + o.Text(), r' + o'.Text();
    LessAfterPrefix(Padded(n, NANO_DIGITS), "." + x, "." + y);
    LessAfterPrefix(".", x, y);
    LessTotal(r, r');
    if Less(r, r') {
      LessByPrefix(r, r', o.Text(), o'.Text());
    } else {
      LessByPrefix(r', r, o'.Text(), o.Text());
    }
    LessTotal(x, y);
  }
}
