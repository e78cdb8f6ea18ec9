/**
 * String helpers the scanner relies on: Python's `str.split` and `str.join`,
 * `str()` of a non-negative integer, and a decimal parser that inverts it.
 */
module Text {

  datatype Option<T> = None | Some(value: T)

  predicate IsDigit(c: char) {
    '0' <= c <= '9'
  }

  predicate AllDigits(s: string) {
    forall c | c in s :: IsDigit(c)
  }

  /** `s.split(sep)`: the pieces between non-overlapping occurrences of `sep`, scanned left to right. */
  function SplitOn(s: string, sep: string): (parts: seq<string>)
    requires sep != []
    ensures |parts| >= 1
    decreases |s|
  {
    if |s| == 0 then [""]
    else if sep <= s then [""] + SplitOn(s[|sep|..], sep)
    else
      var rest := SplitOn(s[1..], sep);
      [[s[0]] + rest[0]] + rest[1..]
  }

  /** `sep.join(parts)`. */
  function Join(sep: string, parts: seq<string>): string {
    if |parts| == 0 then ""
    else if |parts| == 1 then parts[0]
    else parts[0] + sep + Join(sep, parts[1..])
  }

  /** Position of the last occurrence of `c` in `s`, or -1 when there is none. */
  function LastIndexOf(s: string, c: char): (i: int)
    ensures -1 <= i < |s|
    ensures i == -1 <==> c !in s
    ensures i >= 0 ==> s[i] == c && c !in s[i + 1..]
  {
    if |s| == 0 then -1
    else if s[|s| - 1] == c then |s| - 1
    else
      assert s == s[..|s| - 1] + [s[|s| - 1]];
      LastIndexOf(s[..|s| - 1], c)
  }

  function DigitChar(d: nat): (c: char)
    requires d < 10
    ensures IsDigit(c) && c as int - '0' as int == d
  {
    ('0' as int + d) as char
  }

  /** `str(n)` for a non-negative integer: decimal digits, no sign, no leading zeros. */
  function NatToString(n: nat): (s: string)
    ensures |s| >= 1 && AllDigits(s)
    ensures s[0] == '0' ==> n == 0
    decreases n
  {
    if n < 10 then [DigitChar(n)]
    else NatToString(n / 10) + [DigitChar(n % 10)]
  }

  /** The value of a string of decimal digits, most significant first. */
  function DigitsValue(s: string): nat
    requires AllDigits(s)
  {
    if |s| == 0 then 0
    else
      assert s[|s| - 1] in s;
      DigitsValue(s[..|s| - 1]) * 10 + (s[|s| - 1] as int - '0' as int)
  }

  /** A decimal parser: `Some(value)` exactly for non-empty strings of digits. */
  function ParseNat(s: string): (r: Option<nat>)
    ensures r.Some? <==> |s| >= 1 && AllDigits(s)
  {
    if |s| >= 1 && AllDigits(s) then Some(DigitsValue(s)) else None
  }

  lemma {:induction false} ParseNatToString(n: nat)
    ensures ParseNat(NatToString(n)) == Some(n)
    decreases n
  {
    var s := NatToString(n);
    if n >= 10 {
      ParseNatToString(n / 10);
      var prefix := NatToString(n / 10);
      assert s[..|s| - 1] == prefix;
      assert DigitsValue(s) == DigitsValue(prefix) * 10 + n % 10;
    } else {
      assert s[..|s| - 1] == [];
    }
  }

  lemma {:induction false} JoinSnoc(sep: string, parts: seq<string>, last: string)
    requires |parts| >= 1
    ensures Join(sep, parts + [last]) == Join(sep, parts) + sep + last
    decreases |parts|
  {
    if |parts| > 1 {
      assert (parts + [last])[1..] == parts[1..] + [last];
      JoinSnoc(sep, parts[1..], last);
    }
  }

  /** Joining what was split gives back the original string. */
  lemma {:induction false} JoinSplit(s: string, sep: string)
    requires sep != []
    ensures Join(sep, SplitOn(s, sep)) == s
    decreases |s|
  {
    if |s| == 0 {
    } else if sep <= s {
      JoinSplit(s[|sep|..], sep);
      JoinSplitAtSeparator(s, sep);
    } else {
      JoinSplit(s[1..], sep);
      JoinSplitAtChar(s, sep);
    }
  }

  lemma JoinSplitAtSeparator(s: string, sep: string)
    requires sep != [] && sep <= s
    requires Join(sep, SplitOn(s[|sep|..], sep)) == s[|sep|..]
    ensures Join(sep, SplitOn(s, sep)) == s
  {
    var rest := SplitOn(s[|sep|..], sep);
    assert SplitOn(s, sep) == [""] + rest;
    JoinCons(sep, "", rest);
    assert "" + sep == sep;
    PrefixThenRest(sep, s);
  }

  lemma JoinSplitAtChar(s: string, sep: string)
    requires sep != [] && |s| > 0 && !(sep <= s)
    requires Join(sep, SplitOn(s[1..], sep)) == s[1..]
    ensures Join(sep, SplitOn(s, sep)) == s
  {
    var rest := SplitOn(s[1..], sep);
    JoinExtendFirst(sep, s[0], rest);
    assert s == [s[0]] + s[1..];
  }

  lemma PrefixThenRest(p: string, s: string)
    requires p <= s
    ensures s == p + s[|p|..]
  {
    assert s[..|p|] == p;
  }

  lemma JoinCons(sep: string, first: string, rest: seq<string>)
    requires |rest| >= 1
    ensures Join(sep, [first] + rest) == first + sep + Join(sep, rest)
  {
    assert ([first] + rest)[1..] == rest;
  }

  lemma JoinExtendFirst(sep: string, c: char, parts: seq<string>)
    requires |parts| >= 1
    ensures Join(sep, [[c] + parts[0]] + parts[1..]) == [c] + Join(sep, parts)
  {
    if |parts| > 1 {
      JoinCons(sep, [c] + parts[0], parts[1..]);
      JoinCons(sep, parts[0], parts[1..]);
      assert parts == [parts[0]] + parts[1..];
    }
  }

  /** Splitting on a one-character separator leaves no separator inside a piece. */
  lemma {:induction false} SplitPiecesFree(s: string, c: char)
    ensures forall i | 0 <= i < |SplitOn(s, [c])| :: c !in SplitOn(s, [c])[i]
    decreases |s|
  {
    if |s| > 0 {
      SplitPiecesFree(s[1..], c);
    }
  }

  /** A piece that cannot start a separator is never split. */
  lemma {:induction false} SplitWhole(a: string, sep: string)
    requires sep != [] && sep[0] !in a
    ensures SplitOn(a, sep) == [a]
    decreases |a|
  {
    if |a| > 0 {
      SplitWhole(a[1..], sep);
      assert a == [a[0]] + a[1..];
    }
  }

  lemma {:induction false} SplitAfterPiece(a: string, sep: string, b: string)
    requires sep != [] && sep[0] !in a
    ensures SplitOn(a + sep + b, sep) == [a] + SplitOn(b, sep)
    decreases |a|
  {
    var s := a + sep + b;
    if |a| == 0 {
      assert s == sep + b && sep <= s && s[|sep|..] == b;
    } else {
      assert s[0] == a[0] != sep[0];
      assert s[1..] == a[1..] + sep + b;
      SplitAfterPiece(a[1..], sep, b);
      assert a == [a[0]] + a[1..];
    }
  }

  /** Splitting what was joined gives back the pieces, when no piece holds the separator's first character. */
  lemma {:induction false} SplitJoin(parts: seq<string>, sep: string)
    requires sep != [] && |parts| >= 1
    requires forall i | 0 <= i < |parts| :: sep[0] !in parts[i]
    ensures SplitOn(Join(sep, parts), sep) == parts
    decreases |parts|
  {
    if |parts| == 1 {
      SplitWhole(parts[0], sep);
    } else {
      SplitJoin(parts[1..], sep);
      SplitAfterPiece(parts[0], sep, Join(sep, parts[1..]));
    }
  }

  lemma {:induction false} LastIndexOfAfter(p: string, c: char, q: string)
    requires c !in q
    ensures LastIndexOf(p + [c] + q, c) == |p|
    decreases |q|
  {
    var s := p + [c] + q;
    if |q| > 0 {
      assert s[..|s| - 1] == p + [c] + q[..|q| - 1];
      LastIndexOfAfter(p, c, q[..|q| - 1]);
    }
  }
}
