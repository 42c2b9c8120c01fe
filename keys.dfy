/**
 * The grouping key of the encoder and the order it sorts keys in.
 *
 * The encoder keys each data entry by `strftime('%s')` of the record's timestamp: the
 * epoch second printed in decimal. Keys are Python strings and `sorted` compares them
 * code point by code point, so the data section is in chronological order only when
 * every key has the same number of digits (see SameWidthOrder and WidthMatters).
 */
module Keys {

  function Digit(d: nat): (c: char)
    requires d < 10
    ensures '0' <= c <= '9'
  {
    ('0' as int + d) as char
  }

  /** The decimal digits of n, most significant first, with no leading zero. */
  function Decimal(n: nat): (s: string)
    ensures |s| >= 1
    ensures |s| == 1 <==> n < 10
    decreases n
  {
    if n < 10 then [Digit(n)] else Decimal(n / 10) + [Digit(n % 10)]
  }

  /** Python's `<` on str: the first differing code point decides, and a proper prefix comes first. */
  predicate LexLess(a: string, b: string)
  {
    |b| > 0 && (|a| == 0 || a[0] < b[0] || (a[0] == b[0] && LexLess(a[1..], b[1..])))
  }

  lemma LexLessIrreflexive(a: string)
    ensures !LexLess(a, a)
  {
  }

  lemma LexLessTransitive(a: string, b: string, c: string)
    requires LexLess(a, b) && LexLess(b, c)
    ensures LexLess(a, c)
  {
  }

  lemma LexLessTotal(a: string, b: string)
    requires a != b
    ensures LexLess(a, b) || LexLess(b, a)
  {
    if |a| > 0 && |b| > 0 && a[0] == b[0] {
      assert a == [a[0]] + a[1..] && b == [b[0]] + b[1..];
      LexLessTotal(a[1..], b[1..]);
    }
  }

  lemma LexLessAsymmetric(a: string, b: string)
    requires LexLess(a, b)
    ensures !LexLess(b, a)
  {
    if LexLess(b, a) {
      LexLessTransitive(a, b, a);
      LexLessIrreflexive(a);
    }
  }

  /** Comparing two equally long strings each extended by one character. */
  lemma {:induction false} LexLessAppend(a: string, b: string, x: char, y: char)
    requires |a| == |b|
    ensures LexLess(a + [x], b + [y]) <==> LexLess(a, b) || (a == b && x < y)
  {
    if |a| > 0 {
      assert (a + [x])[1..] == a[1..] + [x];
      assert (b + [y])[1..] == b[1..] + [y];
      LexLessAppend(a[1..], b[1..], x, y);
      if a[0] == b[0] {
        assert a == b <==> a[1..] == b[1..] by {
          assert a == [a[0]] + a[1..] && b == [b[0]] + b[1..];
        }
      }
    }
  }

  /**
   * Keys of the same width sort like the epoch seconds they print: the assumption under
   * which the encoder's string sort is chronological.
   */
  lemma {:induction false} SameWidthOrder(a: nat, b: nat)
    requires |Decimal(a)| == |Decimal(b)|
    ensures LexLess(Decimal(a), Decimal(b)) <==> a < b
    decreases a + b
  {
    if a < 10 {
      assert b < 10;
    } else {
      assert b >= 10;
      var x, y := Digit(a % 10), Digit(b % 10);
      LexLessAppend(Decimal(a / 10), Decimal(b / 10), x, y);
      SameWidthOrder(a / 10, b / 10);
      SameWidthOrder(b / 10, a / 10);
      if Decimal(a / 10) == Decimal(b / 10) {
        LexLessIrreflexive(Decimal(a / 10));
        assert a / 10 == b / 10;
      }
      assert x < y <==> a % 10 < b % 10;
    }
  }

  /** Without that assumption the order breaks: "10" sorts before "9". */
  lemma WidthMatters()
    ensures LexLess(Decimal(10), Decimal(9))
  {
    assert Decimal(10) == ['1', '0'];
    assert Decimal(9) == ['9'];
  }

  /** Every key strictly before every later one. */
  predicate StrictlySorted(s: seq<string>)
  {
    forall i, j :: 0 <= i < j < |s| ==> LexLess(s[i], s[j])
  }

  /** The first key is the least and the last the greatest. */
  lemma SortedBounds(s: seq<string>)
    requires StrictlySorted(s)
    ensures forall i :: 0 <= i < |s| ==> !LexLess(s[i], s[0]) && !LexLess(s[|s| - 1], s[i])
  {
    forall i | 0 <= i < |s| ensures !LexLess(s[i], s[0]) && !LexLess(s[|s| - 1], s[i]) {
      if i > 0 { LexLessAsymmetric(s[0], s[i]); } else { LexLessIrreflexive(s[0]); }
      if i < |s| - 1 { LexLessAsymmetric(s[i], s[|s| - 1]); } else { LexLessIrreflexive(s[i]); }
    }
  }

  /** Adds a key to a sorted list of keys, keeping it sorted. */
  function InsertSorted(s: seq<string>, k: string): (r: seq<string>)
    requires StrictlySorted(s) && k !in s
    ensures StrictlySorted(r)
    ensures forall x :: x in r <==> x in s || x == k
    ensures |r| == |s| + 1
  {
    if s == [] then [k]
    else if LexLess(k, s[0]) then
      assert StrictlySorted([k] + s) by {
        forall j | 0 < j < |s| {
          LexLessTransitive(k, s[0], s[j]);
        }
      }
      [k] + s
    else
      var rest := InsertSorted(s[1..], k);
      assert StrictlySorted([s[0]] + rest) by {
        LexLessTotal(k, s[0]);
        forall j | 0 <= j < |rest| ensures LexLess(s[0], rest[j]) {
          if rest[j] != k {
            assert rest[j] in s[1..];
          }
        }
      }
      [s[0]] + rest
  }

  lemma {:induction false} LeastExists(keys: set<string>)
    requires keys != {}
    ensures exists k :: k in keys && forall k' :: k' in keys && k' != k ==> LexLess(k, k')
    decreases keys
  {
    var x :| x in keys;
    if keys != {x} {
      LeastExists(keys - {x});
      var m :| m in keys - {x} && forall k' :: k' in keys - {x} && k' != m ==> LexLess(m, k');
      LexLessTotal(x, m);
      if LexLess(x, m) {
        forall k' | k' in keys && k' != x ensures LexLess(x, k') {
          if k' != m {
            LexLessTransitive(x, m, k');
          }
        }
      } else {
        assert forall k' :: k' in keys && k' != m ==> LexLess(m, k');
      }
    }
  }

  /** The keys of a set in ascending order: what `sorted` makes of a dictionary's keys. */
  ghost function SortedKeys(keys: set<string>): (r: seq<string>)
    ensures StrictlySorted(r)
    ensures forall k :: k in r <==> k in keys
    ensures |r| == |keys|
    decreases keys
  {
    if keys == {} then []
    else
      assert exists k :: k in keys && forall k' :: k' in keys && k' != k ==> LexLess(k, k') by {
        LeastExists(keys);
      }
      var k :| k in keys && forall k' :: k' in keys && k' != k ==> LexLess(k, k');
      [k] + SortedKeys(keys - {k})
  }

  lemma SameHead(s: seq<string>, r: seq<string>)
    requires StrictlySorted(s) && StrictlySorted(r) && s != [] && r != []
    requires forall k :: k in s <==> k in r
    ensures s[0] == r[0]
  {
    assert s[0] in s && r[0] in r;
    var a :| 0 <= a < |r| && r[a] == s[0];
    var b :| 0 <= b < |s| && s[b] == r[0];
    if a > 0 && b > 0 {
      LexLessAsymmetric(r[0], r[a]);
    } else if a > 0 {
      LexLessIrreflexive(r[0]);
    } else if b > 0 {
      LexLessIrreflexive(s[0]);
    }
  }

  lemma SortedTail(s: seq<string>)
    requires StrictlySorted(s) && s != []
    ensures StrictlySorted(s[1..])
    ensures forall k :: k in s[1..] <==> k in s && k != s[0]
  {
    forall k | k in s[1..] ensures k != s[0] {
      var i :| 1 <= i < |s| && s[i] == k;
      if k == s[0] { LexLessIrreflexive(k); }
    }
    forall k | k in s && k != s[0] ensures k in s[1..] {
      var i :| 0 <= i < |s| && s[i] == k;
      assert s[1..][i - 1] == k;
    }
  }

  /** A strictly sorted list of exactly the given keys is the sorted order of those keys. */
  lemma {:induction false} SortedKeysUnique(s: seq<string>, keys: set<string>)
    requires StrictlySorted(s)
    requires forall k :: k in s <==> k in keys
    ensures s == SortedKeys(keys)
    decreases keys
  {
    var r := SortedKeys(keys);
    if s == [] {
      assert keys == {};
    } else {
      assert s[0] in keys;
      assert r == [r[0]] + SortedKeys(keys - {r[0]});
      SameHead(s, r);
      SortedTail(s);
      SortedKeysUnique(s[1..], keys - {s[0]});
      assert s == [s[0]] + s[1..];
    }
  }
}
