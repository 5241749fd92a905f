/**
 Go string and byte-slice helpers used by the client and the UI: `strings.Split`
 and `bytes.Split` on a one-element separator, joining, `strings.TrimLeft` with a
 one-character cutset, and `strconv.FormatInt` in base 10.

 A Go `string` is a sequence of bytes. It is modelled as a Dafny `string` holding
 one `char` per byte, so lengths, indexing and splitting agree with Go's.
 */
module Text {

  /** One byte of a Go `[]byte`. */
  type byte = b: int | 0 <= b < 256

  /** The byte value of `'\n'`. */
  const NewlineByte: byte := 10

  /** Number of occurrences of `x` in `s`. */
  function Count<T(==)>(s: seq<T>, x: T): nat
  {
    if |s| == 0 then 0 else (if s[0] == x then 1 else 0) + Count(s[1..], x)
  }

  lemma {:induction false} CountZero<T>(s: seq<T>, x: T)
    ensures Count(s, x) == 0 <==> x !in s
  {
    if |s| > 0 {
      CountZero(s[1..], x);
      assert x in s <==> s[0] == x || x in s[1..];
    }
  }

  /** Joins `parts` with `sep` between consecutive parts (Go's `strings.Join`). */
  function JoinWith<T>(parts: seq<seq<T>>, sep: T): seq<T>
  {
    if |parts| == 0 then []
    else if |parts| == 1 then parts[0]
    else parts[0] + [sep] + JoinWith(parts[1..], sep)
  }

  /**
   Splits `s` around every occurrence of `sep` (Go's `strings.Split(s, sep)` for a
   one-element separator): there is always one more piece than separators, no piece
   contains the separator, and joining the pieces back gives `s`.
   */
  function Split<T(==)>(s: seq<T>, sep: T): (r: seq<seq<T>>)
    ensures |r| == Count(s, sep) + 1
    ensures forall i :: 0 <= i < |r| ==> sep !in r[i]
    ensures JoinWith(r, sep) == s
  {
    if |s| == 0 then [[]]
    else
      var rest := Split(s[1..], sep);
      if s[0] == sep then
        assert JoinWith([[]] + rest, sep) == [sep] + JoinWith(rest, sep);
        [[]] + rest
      else
        JoinConsHead(s[0], rest, sep);
        [[s[0]] + rest[0]] + rest[1..]
  }

  /** Prepending an element to the first part prepends it to the joined result. */
  lemma JoinConsHead<T>(x: T, parts: seq<seq<T>>, sep: T)
    requires |parts| > 0
    ensures JoinWith([[x] + parts[0]] + parts[1..], sep) == [x] + JoinWith(parts, sep)
  {
    if |parts| == 1 {
      JoinOne([x] + parts[0], parts[1..], sep);
    } else {
      JoinFront([x] + parts[0], parts[1..], sep);
      AssocCons(x, parts[0], sep, JoinWith(parts[1..], sep));
    }
  }

  lemma JoinOne<T>(first: seq<T>, rest: seq<seq<T>>, sep: T)
    requires |rest| == 0
    ensures JoinWith([first] + rest, sep) == first
  {
    assert [first] + rest == [first];
  }

  lemma AssocCons<T>(x: T, a: seq<T>, sep: T, b: seq<T>)
    ensures [x] + a + [sep] + b == [x] + (a + [sep] + b)
  {
  }

  /** Joining a part in front of at least one other part puts a separator after it. */
  lemma JoinFront<T>(first: seq<T>, rest: seq<seq<T>>, sep: T)
    requires |rest| > 0
    ensures JoinWith([first] + rest, sep) == first + [sep] + JoinWith(rest, sep)
  {
    assert ([first] + rest)[1..] == rest;
  }

  /** A piece without separators followed by a separator splits off as the first piece. */
  lemma {:induction false} SplitAppend<T>(a: seq<T>, sep: T, b: seq<T>)
    requires sep !in a
    ensures Split(a + [sep] + b, sep) == [a] + Split(b, sep)
  {
    if |a| == 0 {
      assert a + [sep] + b == [sep] + b;
      assert ([sep] + b)[1..] == b;
    } else {
      SplitAppend(a[1..], sep, b);
      assert (a + [sep] + b)[1..] == a[1..] + [sep] + b;
      assert [a[0]] + a[1..] == a;
    }
  }

  /** A sequence without separators is a single piece. */
  lemma SplitNoSep<T>(s: seq<T>, sep: T)
    requires sep !in s
    ensures Split(s, sep) == [s]
  {
    CountZero(s, sep);
  }

  /**
   Splitting inverts joining when no part contains the separator: the other half
   of the round trip stated by `Split`'s contract.
   */
  lemma {:induction false} SplitJoin<T>(parts: seq<seq<T>>, sep: T)
    requires |parts| > 0
    requires forall i :: 0 <= i < |parts| ==> sep !in parts[i]
    ensures Split(JoinWith(parts, sep), sep) == parts
  {
    if |parts| == 1 {
      SplitNoSep(parts[0], sep);
    } else {
      SplitJoin(parts[1..], sep);
      SplitAppend(parts[0], sep, JoinWith(parts[1..], sep));
      assert [parts[0]] + parts[1..] == parts;
    }
  }

  /** Joining a non-empty list with one more part appended. */
  lemma {:induction false} JoinSnoc<T>(parts: seq<seq<T>>, x: seq<T>, sep: T)
    requires |parts| > 0
    ensures JoinWith(parts + [x], sep) == JoinWith(parts, sep) + [sep] + x
  {
    if |parts| == 1 {
      assert (parts + [x])[1..] == [x];
    } else {
      JoinSnoc(parts[1..], x, sep);
      assert (parts + [x])[1..] == parts[1..] + [x];
    }
  }

  /**
   Go's `strings.TrimLeft(s, cutset)` for a one-character cutset: removes every
   leading `c` and nothing else.
   */
  function TrimLeft(s: string, c: char): (r: string)
    ensures |r| <= |s| && r == s[|s| - |r|..]
    ensures forall i :: 0 <= i < |s| - |r| ==> s[i] == c
    ensures |r| == 0 || r[0] != c
  {
    if |s| > 0 && s[0] == c then TrimLeft(s[1..], c) else s
  }

  /** The decimal digit character for `d`. */
  function DigitChar(d: nat): char
    requires d < 10
  {
    (48 + d) as char
  }

  /** Go's `strconv.FormatInt(n, 10)` for a non-negative `n`. */
  function Decimal(n: nat): (r: string)
    ensures |r| > 0
    ensures forall i :: 0 <= i < |r| ==> '0' <= r[i] <= '9'
    ensures r[0] == '0' ==> n == 0 && r == "0"
  {
    if n < 10 then [DigitChar(n)] else Decimal(n / 10) + [DigitChar(n % 10)]
  }

  /** The value of a string of decimal digits. */
  function ParseDecimal(s: string): nat
    requires forall i :: 0 <= i < |s| ==> '0' <= s[i] <= '9'
  {
    if |s| == 0 then 0 else 10 * ParseDecimal(s[..|s| - 1]) + (s[|s| - 1] as int - 48)
  }

  /** Reading back a formatted number gives the number: `Decimal` loses nothing. */
  lemma {:induction false} DecimalRoundTrip(n: nat)
    ensures ParseDecimal(Decimal(n)) == n
  {
    if n >= 10 {
      var r := Decimal(n);
      assert r[..|r| - 1] == Decimal(n / 10);
      DecimalRoundTrip(n / 10);
    }
  }

  /** Go's `string(b)`: one character per byte. */
  function BytesToString(b: seq<byte>): (r: string)
    ensures |r| == |b|
    ensures forall i :: 0 <= i < |b| ==> r[i] as int == b[i]
  {
    seq(|b|, i requires 0 <= i < |b| => b[i] as char)
  }

  /** Go's `[]byte(s)` for a string whose characters are bytes. */
  function StringToBytes(s: string): (r: seq<byte>)
    requires forall i :: 0 <= i < |s| ==> s[i] as int < 256
    ensures BytesToString(r) == s
  {
    seq(|s|, i requires 0 <= i < |s| => s[i] as int)
  }
}
