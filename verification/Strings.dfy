/** The few library operations on text that the consumer relies on. */
module Strings {

  /** Byte-wise string order, as used to sort column names. */
  predicate LexLe(a: string, b: string) {
    a == [] || (b != [] && (a[0] < b[0] || (a[0] == b[0] && LexLe(a[1..], b[1..]))))
  }

  lemma {:induction false} LexTotal(a: string, b: string)
    ensures LexLe(a, b) || LexLe(b, a)
    decreases |a|
  {
    if a != [] && b != [] {
      LexTotal(a[1..], b[1..]);
    }
  }

  lemma {:induction false} LexAntisymmetric(a: string, b: string)
    requires LexLe(a, b) && LexLe(b, a)
    ensures a == b
    decreases |a|
  {
    if a != [] {
      LexAntisymmetric(a[1..], b[1..]);
      assert a == [a[0]] + a[1..] && b == [b[0]] + b[1..];
    }
  }

  lemma {:induction false} LexTransitive(a: string, b: string, c: string)
    requires LexLe(a, b) && LexLe(b, c)
    ensures LexLe(a, c)
    decreases |a|
  {
    if a != [] && a[0] == b[0] == c[0] {
      LexTransitive(a[1..], b[1..], c[1..]);
    }
  }

  lemma {:induction false} LeastExists(names: set<string>) returns (least: string)
    requires names != {}
    ensures least in names && forall n :: n in names ==> LexLe(least, n)
    decreases |names|
  {
    var x :| x in names;
    var rest := names - {x};
    LexTotal(x, x);
    if rest == {} {
      assert names == {x};
      least := x;
    } else {
      var m := LeastExists(rest);
      LexTotal(x, m);
      least := if LexLe(x, m) then x else m;
      forall n | n in names
        ensures LexLe(least, n)
      {
        if n != x && least == x {
          LexTransitive(x, m, n);
        }
      }
    }
  }

  function Least(names: set<string>): (least: string)
    requires names != {}
    ensures least in names && forall n :: n in names ==> LexLe(least, n)
  {
    assert exists m :: m in names && forall n :: n in names ==> LexLe(m, n) by {
      var m := LeastExists(names);
    }
    assert forall a, b :: LexLe(a, b) && LexLe(b, a) ==> a == b by {
      forall a, b | LexLe(a, b) && LexLe(b, a) ensures a == b { LexAntisymmetric(a, b); }
    }
    var m :| m in names && forall n :: n in names ==> LexLe(m, n);
    m
  }

  /** The names in order, each once. */
  function Sorted(names: set<string>): (r: seq<string>)
    ensures forall n :: n in r <==> n in names
    ensures forall i, j :: 0 <= i < j < |r| ==> r[i] != r[j] && LexLe(r[i], r[j])
    decreases |names|
  {
    if names == {} then [] else
      var m := Least(names);
      [m] + Sorted(names - {m})
  }

  /** There is only one way to put names in order. */
  lemma {:induction false} SortedIs(names: set<string>, s: seq<string>)
    requires forall n :: n in s <==> n in names
    requires forall i, j :: 0 <= i < j < |s| ==> s[i] != s[j] && LexLe(s[i], s[j])
    ensures Sorted(names) == s
    decreases |s|
  {
    if s == [] {
      assert names == {};
    } else {
      assert s[0] in s && s[0] in names;
      var m := Least(names);
      assert m in s;
      var i :| 0 <= i < |s| && s[i] == m;
      if i > 0 {
        LexAntisymmetric(s[0], m);
      }
      SortedIs(names - {m}, s[1..]);
    }
  }

  /** Unicode white space, the set that trimming removes. */
  predicate IsSpace(c: char) {
    var n := c as int;
    n == 0x20 || 0x09 <= n <= 0x0D || n == 0x85 || n == 0xA0 || n == 0x1680 || 0x2000 <= n <= 0x200A ||
    n == 0x2028 || n == 0x2029 || n == 0x202F || n == 0x205F || n == 0x3000
  }

  function TrimLeft(s: string): string {
    if s != [] && IsSpace(s[0]) then TrimLeft(s[1..]) else s
  }

  function TrimRight(s: string): string {
    if s != [] && IsSpace(s[|s| - 1]) then TrimRight(s[..|s| - 1]) else s
  }

  function TrimSpace(s: string): string {
    TrimRight(TrimLeft(s))
  }

  predicate IsDigit(c: char) {
    '0' <= c <= '9'
  }

  function DigitsValue(s: string): nat
    requires forall c :: c in s ==> IsDigit(c)
  {
    if s == [] then 0
    else
      assert IsDigit(s[|s| - 1]);
      10 * DigitsValue(s[..|s| - 1]) + (s[|s| - 1] as int - '0' as int)
  }

  /** Whether a JSON number's digits denote a signed 64-bit integer. */
  predicate IsInt64(s: string) {
    var negative := s != [] && s[0] == '-';
    var digits := if negative then s[1..] else s;
    && digits != []
    && (forall c :: c in digits ==> IsDigit(c))
    && DigitsValue(digits) < 0x8000_0000_0000_0000 + (if negative then 1 else 0)
  }

  /** An optional minus sign and digits. */
  predicate IsNumeral(s: string) {
    var digits := if s != [] && s[0] == '-' then s[1..] else s;
    digits != [] && forall c :: c in digits ==> '0' <= c <= '9'
  }

  /** The number a numeral denotes. */
  function NumeralValue(s: string): int
    requires IsNumeral(s)
  {
    if s[0] == '-' then 0 - DigitsValue(s[1..]) else DigitsValue(s)
  }

  /** A 64-bit integer is a numeral from -2^63 up to, and not including, 2^63. */
  lemma Int64Iff(s: string)
    ensures IsInt64(s) <==> IsNumeral(s) && -0x8000_0000_0000_0000 <= NumeralValue(s) < 0x8000_0000_0000_0000
  {
    var digits := if s != [] && s[0] == '-' then s[1..] else s;
    assert IsNumeral(s) <==> digits != [] && forall c :: c in digits ==> IsDigit(c);
    if IsNumeral(s) {
      var v: int := DigitsValue(digits);
      assert NumeralValue(s) == if s[0] == '-' then 0 - v else v;
    }
  }

  predicate HasPrefix(s: string, prefix: string) {
    prefix <= s
  }

  /** The pieces of a text between separators; the empty text is one empty piece. */
  function Split(s: string, sep: char): (r: seq<string>)
    ensures |r| >= 1
    ensures forall i :: 0 <= i < |r| ==> sep !in r[i]
  {
    if s == [] then [[]]
    else if s[0] == sep then [[]] + Split(s[1..], sep)
    else
      var r := Split(s[1..], sep);
      [[s[0]] + r[0]] + r[1..]
  }

  function Join(parts: seq<string>, sep: char): string {
    if parts == [] then []
    else if |parts| == 1 then parts[0]
    else parts[0] + [sep] + Join(parts[1..], sep)
  }

  lemma {:induction false} SplitPrefix(part: string, rest: string, sep: char)
    requires sep !in part
    ensures Split(part + [sep] + rest, sep) == [part] + Split(rest, sep)
    ensures Split(part, sep) == [part]
    decreases |part|
  {
    if part == [] {
      assert ([] + [sep] + rest)[1..] == rest;
    } else {
      SplitPrefix(part[1..], rest, sep);
      assert (part + [sep] + rest)[1..] == part[1..] + [sep] + rest;
      assert [part[0]] + part[1..] == part;
    }
  }

  lemma {:induction false} SplitJoin(parts: seq<string>, sep: char)
    requires parts != [] && forall i :: 0 <= i < |parts| ==> sep !in parts[i]
    ensures Split(Join(parts, sep), sep) == parts
    decreases |parts|
  {
    SplitPrefix(parts[0], Join(parts[1..], sep), sep);
    if |parts| > 1 {
      SplitJoin(parts[1..], sep);
    }
  }

  /** Nothing to trim at either end. */
  predicate Tight(s: string) {
    s != [] ==> !IsSpace(s[0]) && !IsSpace(s[|s| - 1])
  }

  lemma TrimTight(s: string)
    requires Tight(s)
    ensures TrimSpace(s) == s
  {
  }

  lemma {:induction false} TrimLeftKeeps(s: string)
    ensures TrimLeft(s) != [] ==> !IsSpace(TrimLeft(s)[0])
    ensures forall c :: c in TrimLeft(s) ==> c in s
    decreases |s|
  {
    if s != [] && IsSpace(s[0]) {
      TrimLeftKeeps(s[1..]);
    }
  }

  lemma {:induction false} TrimRightKeeps(s: string)
    ensures TrimRight(s) != [] ==> !IsSpace(TrimRight(s)[|TrimRight(s)| - 1]) && TrimRight(s)[0] == s[0]
    ensures forall c :: c in TrimRight(s) ==> c in s
    ensures |TrimRight(s)| <= |s|
    decreases |s|
  {
    if s != [] && IsSpace(s[|s| - 1]) {
      TrimRightKeeps(s[..|s| - 1]);
    }
  }

  /** Trimming leaves a tight text made of what was there. */
  lemma TrimKeeps(s: string)
    ensures Tight(TrimSpace(s))
    ensures forall c :: c in TrimSpace(s) ==> c in s
  {
    TrimLeftKeeps(s);
    TrimRightKeeps(TrimLeft(s));
  }

  /** The text before and after the first separator. */
  function Cut(s: string, sep: char): (r: (string, string, bool))
    ensures r.2 <==> sep in s
    ensures r.2 ==> s == r.0 + [sep] + r.1 && sep !in r.0
  {
    if s == [] then ([], [], false)
    else if s[0] == sep then ([], s[1..], true)
    else
      var r := Cut(s[1..], sep);
      ([s[0]] + r.0, r.1, r.2)
  }

  lemma {:induction false} CutAt(head: string, tail: string, sep: char)
    requires sep !in head
    ensures Cut(head + [sep] + tail, sep) == (head, tail, true)
    decreases |head|
  {
    if head == [] {
      assert ([] + [sep] + tail)[1..] == tail;
    } else {
      CutAt(head[1..], tail, sep);
      assert (head + [sep] + tail)[1..] == head[1..] + [sep] + tail;
      assert [head[0]] + head[1..] == head;
    }
  }
}
