/** The string operations the dashboard relies on: `Array.prototype.join`,
    its inverse for a one-character separator, the decimal form `String(n)` of an
    integer, and the code-unit ordering that JavaScript's default `sort` uses. */
module Text {

  /** The total length of the pieces. */
  ghost function TotalLength(parts: seq<string>): nat
  {
    if parts == [] then 0 else |parts[0]| + TotalLength(parts[1..])
  }

  /** `parts.join(sep)`: every piece once, a separator between neighbours. */
  function Join(parts: seq<string>, sep: string): (r: string)
    ensures |parts| == 0 ==> r == ""
    ensures |parts| == 1 ==> r == parts[0]
    ensures |parts| >= 1 ==> |r| == TotalLength(parts) + (|parts| - 1) * |sep|
  {
    if |parts| == 0 then ""
    else if |parts| == 1 then parts[0]
    else parts[0] + sep + Join(parts[1..], sep)
  }

  /** Pushing one more piece: the join gains a separator and the piece at its end. */
  lemma {:induction false} JoinSnoc(parts: seq<string>, p: string, sep: string)
    requires |parts| >= 1
    ensures Join(parts + [p], sep) == Join(parts, sep) + sep + p
    decreases |parts|
  {
    if |parts| == 1 {
      assert parts + [p] == [parts[0], p];
      assert [parts[0], p][1..] == [p];
    } else {
      assert (parts + [p])[1..] == parts[1..] + [p];
      JoinSnoc(parts[1..], p, sep);
    }
  }

  /** `s.split(c)` for a one-character separator `c`. */
  function Split(s: string, c: char): (r: seq<string>)
    ensures |r| >= 1
  {
    if s == [] then [""]
    else
      var rest := Split(s[1..], c);
      if s[0] == c then [""] + rest else [[s[0]] + rest[0]] + rest[1..]
  }

  /** A piece free of the separator is a single line. */
  lemma {:induction false} SplitNoSeparator(a: string, c: char)
    requires c !in a
    ensures Split(a, c) == [a]
  {
    if a != [] {
      SplitNoSeparator(a[1..], c);
      assert [a[0]] + a[1..] == a;
    }
  }

  /** A separator-free prefix followed by the separator is split off as the first line. */
  lemma {:induction false} SplitAtSeparator(a: string, b: string, c: char)
    requires c !in a
    ensures Split(a + [c] + b, c) == [a] + Split(b, c)
  {
    if a == [] {
      assert a + [c] + b == [c] + b;
      assert ([c] + b)[1..] == b;
    } else {
      assert (a + [c] + b)[1..] == a[1..] + [c] + b;
      SplitAtSeparator(a[1..], b, c);
      assert [a[0]] + a[1..] == a;
    }
  }

  /** Splitting a join on its one-character separator gives the parts back,
      provided no part contains the separator. */
  lemma {:induction false} SplitJoin(parts: seq<string>, c: char)
    requires |parts| >= 1
    requires forall i :: 0 <= i < |parts| ==> c !in parts[i]
    ensures Split(Join(parts, [c]), c) == parts
  {
    if |parts| == 1 {
      SplitNoSeparator(parts[0], c);
    } else {
      SplitJoin(parts[1..], c);
      SplitAtSeparator(parts[0], Join(parts[1..], [c]), c);
      assert [parts[0]] + parts[1..] == parts;
    }
  }

  predicate IsDigit(ch: char)
  {
    '0' <= ch <= '9'
  }

  function DigitChar(d: nat): (ch: char)
    requires d < 10
    ensures IsDigit(ch)
    ensures ch as int - '0' as int == d
  {
    ('0' as int + d) as char
  }

  /** The number a string of decimal digits denotes, most significant first. */
  function DecimalValue(s: string): int
  {
    if s == [] then 0 else DecimalValue(s[..|s| - 1]) * 10 + (s[|s| - 1] as int - '0' as int)
  }

  /** The decimal digits of `n`, most significant first, without leading zeros. */
  function NatToString(n: nat): (r: string)
    ensures |r| >= 1
    ensures forall i :: 0 <= i < |r| ==> IsDigit(r[i])
    ensures |r| > 1 ==> r[0] != '0'
    ensures n > 0 ==> r[0] != '0'
    ensures DecimalValue(r) == n
  {
    if n < 10 then
      assert [DigitChar(n)][..0] == [];
      [DigitChar(n)]
    else
      var prefix := NatToString(n / 10);
      var r := prefix + [DigitChar(n % 10)];
      assert r[..|r| - 1] == prefix;
      r
  }

  /** `String(i)` for a safe integer (magnitude below 2^53, where JavaScript
      prints plain decimal digits): a minus sign exactly for a negative number,
      then the digits of its magnitude without leading zero. */
  function IntToString(i: int): (r: string)
    ensures |r| >= 1
    ensures forall k :: 0 <= k < |r| ==> IsDigit(r[k]) || (k == 0 && r[k] == '-' && i < 0)
    ensures i < 0 <==> r[0] == '-'
    ensures i >= 0 && |r| > 1 ==> r[0] != '0'
    ensures i < 0 ==> |r| >= 2 && r[1] != '0'
    ensures i >= 0 ==> DecimalValue(r) == i
    ensures i < 0 ==> DecimalValue(r[1..]) == -i
  {
    if i < 0 then
      var r := "-" + NatToString(-i);
      assert r[1..] == NatToString(-i);
      r
    else NatToString(i)
  }

  /** Distinct integers have distinct decimal forms. */
  lemma IntToStringInjective(a: int, b: int)
    ensures IntToString(a) == IntToString(b) <==> a == b
  {
  }

  /** `a <= b` for JavaScript strings: character by character (the same as code-unit order for
      the ASCII digit strings compared here), a proper prefix first. */
  predicate LexLe(a: string, b: string)
  {
    a == [] || (b != [] && (a[0] < b[0] || (a[0] == b[0] && LexLe(a[1..], b[1..]))))
  }

  lemma {:induction false} LexLeTotal(a: string, b: string)
    ensures LexLe(a, b) || LexLe(b, a)
  {
    if a != [] && b != [] && a[0] == b[0] {
      LexLeTotal(a[1..], b[1..]);
    }
  }

  lemma {:induction false} LexLeTransitive(a: string, b: string, c: string)
    requires LexLe(a, b) && LexLe(b, c)
    ensures LexLe(a, c)
  {
    if a != [] && a[0] == b[0] && b[0] == c[0] {
      LexLeTransitive(a[1..], b[1..], c[1..]);
    }
  }

  lemma {:induction false} LexLeAntisymmetric(a: string, b: string)
    requires LexLe(a, b) && LexLe(b, a)
    ensures a == b
  {
    if a != [] {
      LexLeAntisymmetric(a[1..], b[1..]);
      assert a == [a[0]] + a[1..] && b == [b[0]] + b[1..];
    }
  }

  /** `s` is ordered by the string form `key` gives each element. */
  ghost predicate SortedBy<T>(s: seq<T>, key: T -> string)
  {
    forall i, j :: 0 <= i < j < |s| ==> LexLe(key(s[i]), key(s[j]))
  }

  /** Insert `x` after every element whose key does not sort after its key
      (a stable insertion). */
  function InsertBy<T>(x: T, sorted: seq<T>, key: T -> string): (r: seq<T>)
    ensures multiset(r) == multiset(sorted) + multiset{x}
  {
    if sorted == [] then [x]
    else if LexLe(key(sorted[0]), key(x)) then
      assert sorted == [sorted[0]] + sorted[1..];
      [sorted[0]] + InsertBy(x, sorted[1..], key)
    else [x] + sorted
  }

  /** A lower bound on the keys of a list and of the new element bounds the keys after insertion. */
  lemma {:induction false} InsertByLowerBound<T>(x: T, s: seq<T>, key: T -> string, b: string)
    requires LexLe(b, key(x))
    requires forall i :: 0 <= i < |s| ==> LexLe(b, key(s[i]))
    ensures forall i :: 0 <= i < |InsertBy(x, s, key)| ==> LexLe(b, key(InsertBy(x, s, key)[i]))
  {
    if s != [] && LexLe(key(s[0]), key(x)) {
      InsertByLowerBound(x, s[1..], key, b);
      var r, rest := InsertBy(x, s, key), InsertBy(x, s[1..], key);
      forall i | 0 < i < |r| ensures LexLe(b, key(r[i])) {
        assert r[i] == rest[i - 1];
      }
    }
  }

  /** Inserting after a smaller head: the head stays in front of the sorted rest. */
  lemma InsertBySortedAfterHead<T>(x: T, sorted: seq<T>, key: T -> string)
    requires sorted != [] && LexLe(key(sorted[0]), key(x))
    requires SortedBy(sorted, key) && SortedBy(InsertBy(x, sorted[1..], key), key)
    ensures SortedBy(InsertBy(x, sorted, key), key)
  {
    var s0, tail := sorted[0], sorted[1..];
    var rest := InsertBy(x, tail, key);
    var r := InsertBy(x, sorted, key);
    assert r == [s0] + rest;
    assert forall i :: 0 <= i < |tail| ==> LexLe(key(s0), key(tail[i])) by {
      forall i | 0 <= i < |tail| ensures LexLe(key(s0), key(tail[i])) {
        assert tail[i] == sorted[i + 1];
      }
    }
    InsertByLowerBound(x, tail, key, key(s0));
    forall i, j | 0 <= i < j < |r| ensures LexLe(key(r[i]), key(r[j])) {
      if i == 0 {
        assert r[j] == rest[j - 1];
      } else {
        assert r[i] == rest[i - 1] && r[j] == rest[j - 1];
      }
    }
  }

  /** Inserting before a larger head: the new element goes in front of the whole list. */
  lemma InsertBySortedBeforeHead<T>(x: T, sorted: seq<T>, key: T -> string)
    requires sorted != [] && !LexLe(key(sorted[0]), key(x))
    requires SortedBy(sorted, key)
    ensures SortedBy(InsertBy(x, sorted, key), key)
  {
    var s0 := sorted[0];
    var r := InsertBy(x, sorted, key);
    LexLeTotal(key(s0), key(x));
    assert r == [x] + sorted;
    assert forall j :: 1 <= j < |r| ==> LexLe(key(x), key(r[j])) by {
      forall j | 1 <= j < |r| ensures LexLe(key(x), key(r[j])) {
        assert r[j] == sorted[j - 1];
        if j > 1 {
          LexLeTransitive(key(x), key(s0), key(sorted[j - 1]));
        }
      }
    }
    forall i, j | 0 < i < j < |r| ensures LexLe(key(r[i]), key(r[j])) {
      assert r[i] == sorted[i - 1] && r[j] == sorted[j - 1];
    }
  }

  lemma {:induction false} InsertBySorted<T>(x: T, sorted: seq<T>, key: T -> string)
    requires SortedBy(sorted, key)
    ensures SortedBy(InsertBy(x, sorted, key), key)
  {
    if sorted != [] {
      if LexLe(key(sorted[0]), key(x)) {
        assert SortedBy(sorted[1..], key);
        InsertBySorted(x, sorted[1..], key);
        InsertBySortedAfterHead(x, sorted, key);
      } else {
        InsertBySortedBeforeHead(x, sorted, key);
      }
    }
  }

  /** `xs.sort()` with no comparator: a stable sort on the elements' string forms. */
  function SortBy<T>(s: seq<T>, key: T -> string): (r: seq<T>)
    ensures multiset(r) == multiset(s)
    ensures SortedBy(r, key)
  {
    if s == [] then []
    else
      var n := |s| - 1;
      assert s == s[..n] + [s[n]];
      var sortedInit := SortBy(s[..n], key);
      InsertBySorted(s[n], sortedInit, key);
      InsertBy(s[n], sortedInit, key)
  }

  predicate StartsWith(s: string, prefix: string)
  {
    |prefix| <= |s| && s[..|prefix|] == prefix
  }
}
