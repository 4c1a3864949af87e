/** Sortable identifiers (app/ids.py): fixed-length base-32 digits of a time, then of a random number. */
module Ids {
  import opened Text

  /** The digits are 0 to 9 and the capital letters without I, L, O and U, in their order. */
  function Digit(d: nat): char
    requires d < 32
  {
    if d < 10 then '0' + d as char
    else if d < 18 then 'A' + (d - 10) as char
    else if d < 20 then 'J' + (d - 18) as char
    else if d < 22 then 'M' + (d - 20) as char
    else if d < 27 then 'P' + (d - 22) as char
    else 'V' + (d - 27) as char
  }

  /** The last `length` base-32 digits of `value`. */
  function Encode(value: nat, length: nat): (s: string)
    ensures |s| == length
  {
    if length == 0 then [] else Encode(value / 32, length - 1) + [Digit(value % 32)]
  }

  function Reversed(s: string): string {
    if s == [] then [] else Reversed(s[1..]) + [s[0]]
  }

  lemma ReversedAppend(s: string, c: char)
    ensures Reversed(s + [c]) == [c] + Reversed(s)
  {
    if s != [] {
      assert (s + [c])[1..] == s[1..] + [c];
      ReversedAppend(s[1..], c);
    }
  }

  method EncodeCrockford32(value: nat, length: nat) returns (s: string)
    ensures s == Encode(value, length)
  {
    var rest := value;
    var chars := [];
    for i := 0 to length
      invariant Encode(value, length) == Encode(rest, length - i) + Reversed(chars)
    {
      var rem := rest % 32;
      rest := rest / 32;
      ReversedAppend(chars, Digit(rem));
      chars := chars + [Digit(rem)];
    }
    s := Reversed(chars);
  }

  function NewId(prefix: string, millis: nat, random: nat): string {
    prefix + "_" + Encode(millis, 10) + Encode(random, 16)
  }

  // ----- order -----

  function Pow32(n: nat): (p: nat)
    ensures p >= 1
  {
    if n == 0 then 1 else 32 * Pow32(n - 1)
  }

  lemma DigitsAscend(c: nat, d: nat)
    requires c < 32 && d < 32
    ensures Digit(c) < Digit(d) <==> c < d
    ensures Digit(c) == Digit(d) <==> c == d
  {
  }

  lemma {:induction false} LessAppend(x: string, y: string, c: char, d: char)
    requires |x| == |y|
    ensures Less(x + [c], y + [d]) <==> Less(x, y) || (x == y && c < d)
  {
    if x == [] {
      assert x + [c] == [c] && y + [d] == [d];
      assert [c][1..] == [] && [d][1..] == [];
    } else {
      assert (x + [c])[1..] == x[1..] + [c] && (y + [d])[1..] == y[1..] + [d];
      assert x == [x[0]] + x[1..] && y == [y[0]] + y[1..];
      LessAppend(x[1..], y[1..], c, d);
    }
  }

  lemma ModUnique(a: nat, m: nat, q: nat, r: nat)
    requires r < m && a == q * m + r
    ensures a % m == r
  {
    var p := a / m;
    assert a == p * m + a % m;
    if p < q {
      Times(p + 1, q, m);
    } else if q < p {
      Times(q + 1, p, m);
    }
  }

  lemma Times(a: nat, b: nat, m: nat)
    requires a <= b
    ensures a * m <= b * m && a * m == (a - 1) * m + m
  {
  }

  /** The low digits of a number are its low digit below the low digits of the rest. */
  lemma ModStep(a: nat, m: nat)
    requires m >= 1
    ensures a % (32 * m) == 32 * (a / 32 % m) + a % 32
  {
    var h, r := a / 32, a % 32;
    var q, low := h / m, h % m;
    assert h == q * m + low;
    assert a == 32 * (q * m + low) + r;
    assert 32 * (q * m) == q * (32 * m);
    ModUnique(a, 32 * m, q, 32 * low + r);
  }

  /** Encodings compare as the numbers do, modulo what the length can hold: order-preserving, and injective. */
  lemma {:induction false} EncodeKeepsOrder(a: nat, b: nat, length: nat)
    ensures Less(Encode(a, length), Encode(b, length)) <==> a % Pow32(length) < b % Pow32(length)
    ensures Encode(a, length) == Encode(b, length) <==> a % Pow32(length) == b % Pow32(length)
  {
    if length > 0 {
      var x, y := Encode(a / 32, length - 1), Encode(b / 32, length - 1);
      EncodeKeepsOrder(a / 32, b / 32, length - 1);
      LessAppend(x, y, Digit(a % 32), Digit(b % 32));
      DigitsAscend(a % 32, b % 32);
      ModStep(a, Pow32(length - 1));
      ModStep(b, Pow32(length - 1));
      assert Encode(a, length) == Encode(b, length) ==> x == y && Digit(a % 32) == Digit(b % 32) by {
        if Encode(a, length) == Encode(b, length) {
          assert x == Encode(a, length)[..length - 1] && y == Encode(b, length)[..length - 1];
          assert Digit(a % 32) == Encode(a, length)[length - 1];
        }
      }
    }
  }

  lemma {:induction false} LessConcat(p: string, x: string, y: string, u: string, v: string)
    requires |x| == |y|
    ensures Less(p + x + u, p + y + v) <==> Less(x, y) || (x == y && Less(u, v))
    decreases |p|, |x|
  {
    if p != [] {
      assert (p + x + u)[1..] == p[1..] + x + u && (p + y + v)[1..] == p[1..] + y + v;
      LessConcat(p[1..], x, y, u, v);
    } else if x != [] {
      assert p + x + u == x + u && p + y + v == y + v;
      assert (x + u)[1..] == [] + x[1..] + u && (y + v)[1..] == [] + y[1..] + v;
      assert x == [x[0]] + x[1..] && y == [y[0]] + y[1..];
      LessConcat([], x[1..], y[1..], u, v);
    } else {
      assert p + x + u == u && p + y + v == v;
    }
  }

  /** Identifiers of one kind sort by their millisecond, and within one millisecond by the random part alone. */
  lemma IdsSortByTime(prefix: string, m: nat, n: nat, r: nat, s: nat)
    requires m < Pow32(10) && n < Pow32(10) && r < Pow32(16) && s < Pow32(16)
    ensures Less(NewId(prefix, m, r), NewId(prefix, n, s)) <==> m < n || (m == n && r < s)
    ensures NewId(prefix, m, r) == NewId(prefix, n, s) <==> m == n && r == s
  {
    hide Encode, Pow32, Less;
    EncodeKeepsOrder(m, n, 10);
    EncodeKeepsOrder(r, s, 16);
    LessConcat(prefix + "_", Encode(m, 10), Encode(n, 10), Encode(r, 16), Encode(s, 16));
    ModSmall(m, Pow32(10));
    ModSmall(n, Pow32(10));
    ModSmall(r, Pow32(16));
    ModSmall(s, Pow32(16));
    if NewId(prefix, m, r) == NewId(prefix, n, s) {
      var k := |prefix| + 1;
      assert Encode(m, 10) == NewId(prefix, m, r)[k..k + 10] && Encode(n, 10) == NewId(prefix, n, s)[k..k + 10];
      assert Encode(r, 16) == NewId(prefix, m, r)[k + 10..] && Encode(s, 16) == NewId(prefix, n, s)[k + 10..];
    }
  }

  lemma ModSmall(a: nat, m: nat)
    requires a < m
    ensures a % m == a
  {
  }

  /** The alphabet of Crockford's base 32. */
  const ALPHABET := "0123456789ABCDEFGHJKMNPQRSTVWXYZ"

  lemma DigitIsOfAlphabet(d: nat)
    requires d < 32
    ensures |ALPHABET| == 32 && Digit(d) == ALPHABET[d]
  {
  }

  /** An identifier is its prefix, an underscore, ten digits of time and sixteen random digits. */
  lemma IdShape(prefix: string, millis: nat, random: nat)
    ensures var id := NewId(prefix, millis, random);
            && |id| == |prefix| + 27 && id[..|prefix| + 1] == prefix + "_"
            && id[|prefix| + 1..|prefix| + 11] == Encode(millis, 10) && id[|prefix| + 11..] == Encode(random, 16)
  {
  }
}
