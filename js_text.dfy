/** The JavaScript string built-ins the webhook handler relies on
    (String.prototype.trim, toLowerCase, startsWith, slice, indexOf, replace,
    split, and the global parseInt and parseFloat), over strings of Unicode
    scalar values. */
module JsText {

  datatype Option<T> = None | Some(value: T)

  /** The WhiteSpace and LineTerminator code points of ECMA-262: what trim()
      removes and what parseInt and parseFloat skip at the front. */
  predicate IsSpace(c: char) {
    c == '\t' || c == '\n' || c == '\U{000B}' || c == '\U{000C}' || c == '\r' || c == ' '
    || c == '\U{00A0}' || c == '\U{1680}' || ('\U{2000}' <= c <= '\U{200A}')
    || c == '\U{2028}' || c == '\U{2029}' || c == '\U{202F}' || c == '\U{205F}'
    || c == '\U{3000}' || c == '\U{FEFF}'
  }

  predicate IsDigit(c: char) {
    '0' <= c <= '9'
  }

  // ---------------------------------------------------------------------
  // trim

  /** The number of white-space characters at the front of s: every one of
      them is white space and the character after them is not. */
  function LeadingSpace(s: string): (n: nat)
    ensures n <= |s|
    ensures n < |s| ==> !IsSpace(s[n])
  {
    if s != [] && IsSpace(s[0]) then LeadingSpace(s[1..]) + 1 else 0
  }

  lemma {:induction false} LeadingSpaceIsSpace(s: string)
    ensures forall i :: 0 <= i < LeadingSpace(s) ==> IsSpace(s[i])
  {
    if s != [] && IsSpace(s[0]) {
      LeadingSpaceIsSpace(s[1..]);
      forall i | 0 < i < LeadingSpace(s) ensures IsSpace(s[i]) {
        assert s[i] == s[1..][i - 1];
      }
    }
  }

  /** The length of s once the white space at its back is dropped. */
  function TrailingEnd(s: string): (n: nat)
    ensures n <= |s|
    ensures 0 < n ==> !IsSpace(s[n - 1])
  {
    if s != [] && IsSpace(s[|s| - 1]) then TrailingEnd(s[..|s| - 1]) else |s|
  }

  lemma {:induction false} TrailingEndIsSpace(s: string)
    ensures forall i :: TrailingEnd(s) <= i < |s| ==> IsSpace(s[i])
  {
    if s != [] && IsSpace(s[|s| - 1]) {
      TrailingEndIsSpace(s[..|s| - 1]);
      forall i | TrailingEnd(s) <= i < |s| - 1 ensures IsSpace(s[i]) {
        assert s[i] == s[..|s| - 1][i];
      }
    }
  }

  /** String.prototype.trimStart */
  function TrimStart(s: string): string {
    s[LeadingSpace(s)..]
  }

  /** String.prototype.trimEnd */
  function TrimEnd(s: string): string {
    s[..TrailingEnd(s)]
  }

  /** String.prototype.trim: a piece of s that begins and ends with a
      character that is not white space. */
  function Trim(s: string): (r: string)
    ensures |r| <= |s|
    ensures r != [] ==> !IsSpace(r[0]) && !IsSpace(r[|r| - 1])
  {
    var t := TrimStart(s);
    assert t != [] ==> t[0] == s[LeadingSpace(s)];
    TrimEnd(t)
  }

  /** A trimmed string begins and ends with a character that is not white
      space, and it is empty exactly when s holds nothing but white space. */
  lemma TrimShape(s: string)
    ensures var r := Trim(s);
      && (r != [] ==> !IsSpace(r[0]) && !IsSpace(r[|r| - 1]))
      && (r == [] <==> forall i :: 0 <= i < |s| ==> IsSpace(s[i]))
  {
    var t := TrimStart(s);
    var r := TrimEnd(t);
    LeadingSpaceIsSpace(s);
    TrailingEndIsSpace(t);
    if r != [] {
      assert r[0] == t[0];
    }
    if r == [] {
      forall i | 0 <= i < |s| ensures IsSpace(s[i]) {
        if i >= LeadingSpace(s) {
          assert s[i] == t[i - LeadingSpace(s)];
        }
      }
    } else {
      assert !IsSpace(s[LeadingSpace(s)]);
    }
  }

  /** The trim of s is the piece of s that starts after its leading white
      space. */
  lemma TrimIsPiece(s: string)
    ensures LeadingSpace(s) + |Trim(s)| <= |s|
    ensures Trim(s) == s[LeadingSpace(s)..LeadingSpace(s) + |Trim(s)|]
  {
    var t := TrimStart(s);
    assert t[..TrailingEnd(t)] == s[LeadingSpace(s)..LeadingSpace(s) + TrailingEnd(t)];
  }

  /** A string that neither begins nor ends with white space is its own trim. */
  lemma TrimIdentity(s: string)
    requires s == [] || (!IsSpace(s[0]) && !IsSpace(s[|s| - 1]))
    ensures Trim(s) == s
  {
    assert LeadingSpace(s) == 0;
    assert TrimStart(s) == s;
  }

  /** Two spaces in front of a text do not change its trim. */
  lemma TrimAfterSpaces(s: string)
    ensures Trim("  " + s) == Trim(s)
  {
    var t := "  " + s;
    assert t[1..][1..] == s;
    assert LeadingSpace(t) == LeadingSpace(s) + 2;
    assert TrimStart(t) == TrimStart(s);
  }

  // ---------------------------------------------------------------------
  // toLowerCase

  /** The letters A-Z map to a-z; every other character is kept. */
  function LowerChar(c: char): char {
    if 'A' <= c <= 'Z' then (c as int + 32) as char else c
  }

  /** String.prototype.toLowerCase, on the ASCII letters; it keeps the
      length. */
  function ToLower(s: string): (r: string)
    ensures |r| == |s|
  {
    seq(|s|, i requires 0 <= i < |s| => LowerChar(s[i]))
  }

  /** Lower-casing a lower-cased text changes nothing. */
  lemma LowerIdempotent(s: string)
    ensures ToLower(ToLower(s)) == ToLower(s)
  {
    var l := ToLower(s);
    forall i | 0 <= i < |s| ensures ToLower(l)[i] == l[i] {
      assert l[i] == LowerChar(s[i]);
    }
  }

  /** Lower-casing never turns white space into something else or back. */
  lemma LowerKeepsSpace(c: char)
    ensures IsSpace(LowerChar(c)) <==> IsSpace(c)
  {
  }

  /** Lower-casing skips the same white space at the front as the text it
      lower-cases. */
  lemma {:induction false} LeadingSpaceLower(s: string)
    ensures LeadingSpace(ToLower(s)) == LeadingSpace(s)
    decreases |s|
  {
    if s != [] {
      assert ToLower(s)[1..] == ToLower(s[1..]);
      LeadingSpaceLower(s[1..]);
    }
  }

  /** Lower-casing keeps the same white space at the end. */
  lemma {:induction false} TrailingEndLower(s: string)
    ensures TrailingEnd(ToLower(s)) == TrailingEnd(s)
    decreases |s|
  {
    if s != [] {
      assert ToLower(s)[..|s| - 1] == ToLower(s[..|s| - 1]);
      TrailingEndLower(s[..|s| - 1]);
    }
  }

  /** textUser.toLowerCase().trim() is the lower-cased trim of textUser:
      trim and toLowerCase commute. */
  lemma TrimLower(s: string)
    ensures Trim(ToLower(s)) == ToLower(Trim(s))
  {
    var t := TrimStart(s);
    LeadingSpaceLower(s);
    assert TrimStart(ToLower(s)) == ToLower(t);
    TrailingEndLower(t);
  }

  // ---------------------------------------------------------------------
  // startsWith, slice, indexOf, replace

  /** String.prototype.startsWith: s is p followed by the rest of s. */
  predicate StartsWith(s: string, p: string)
    ensures StartsWith(s, p) <==> |p| <= |s| && s == p + s[|p|..]
  {
    |p| <= |s| && s[..|p|] == p
  }

  /** A text starts with every one of its prefixes. */
  lemma StartsWithAppend(p: string, q: string)
    ensures StartsWith(p + q, p)
  {
    assert (p + q)[..|p|] == p;
  }

  /** String.prototype.slice with one non-negative argument: past the end it
      yields the empty string. */
  function Slice(s: string, n: nat): (r: string)
    ensures |r| == if n <= |s| then |s| - n else 0
    ensures n <= |s| ==> s == s[..n] + r
  {
    if n <= |s| then s[n..] else []
  }

  /** String.prototype.indexOf for a one-character needle: the first
      position of c, or -1 when c does not occur. */
  function IndexOf(s: string, c: char): (r: int)
    ensures -1 <= r < |s|
    ensures r == -1 <==> c !in s
    ensures 0 <= r ==> s[r] == c && c !in s[..r]
  {
    if s == [] then -1
    else if s[0] == c then 0
    else
      var k := IndexOf(s[1..], c);
      if k < 0 then -1
      else
        assert s[..k + 1] == [s[0]] + s[1..][..k];
        k + 1
  }

  /** The first position holding c is the one IndexOf finds. */
  lemma {:induction false} IndexOfAt(s: string, c: char, k: nat)
    requires k < |s| && s[k] == c && c !in s[..k]
    ensures IndexOf(s, c) == k
  {
    if k > 0 {
      assert s[0] == s[..k][0];
      assert s[1..][..k - 1] == s[..k][1..];
      IndexOfAt(s[1..], c, k - 1);
    }
  }

  /** String.prototype.replace with a one-character pattern and replacement:
      only the first occurrence changes. */
  function ReplaceFirst(s: string, pat: char, with: char): (r: string)
    ensures |r| == |s|
    ensures pat !in s ==> r == s
  {
    var k := IndexOf(s, pat);
    if k < 0 then s else s[k := with]
  }

  /** Only the first occurrence of pat changes; every other character stays. */
  lemma ReplaceFirstAt(s: string, pat: char, with: char, k: int)
    requires 0 <= k < |s| && s[k] == pat && pat !in s[..k]
    ensures ReplaceFirst(s, pat, with) == s[k := with]
  {
    IndexOfAt(s, pat, k);
  }

  // ---------------------------------------------------------------------
  // split

  /** Array.prototype.join */
  function Join(parts: seq<string>, sep: char): string {
    if |parts| == 0 then []
    else if |parts| == 1 then parts[0]
    else parts[0] + [sep] + Join(parts[1..], sep)
  }

  /** String.prototype.split with a one-character separator: at least one
      piece, no piece contains the separator, and joining the pieces back
      gives the input. */
  function Split(s: string, sep: char): (r: seq<string>)
    ensures |r| >= 1
    ensures forall i :: 0 <= i < |r| ==> sep !in r[i]
    ensures Join(r, sep) == s
    decreases |s|
  {
    var k := IndexOf(s, sep);
    if k < 0 then [s]
    else
      var rest := Split(s[k + 1..], sep);
      assert ([s[..k]] + rest)[1..] == rest;
      assert s == s[..k] + [sep] + s[k + 1..];
      [s[..k]] + rest
  }

  /** The number of times c occurs in s. */
  function Occurrences(s: string, c: char): nat {
    if s == [] then 0 else (if s[0] == c then 1 else 0) + Occurrences(s[1..], c)
  }

  lemma {:induction false} OccurrencesSplit(a: string, b: string, c: char)
    ensures Occurrences(a + b, c) == Occurrences(a, c) + Occurrences(b, c)
  {
    if a == [] {
      assert a + b == b;
    } else {
      assert (a + b)[0] == a[0];
      assert (a + b)[1..] == a[1..] + b;
      OccurrencesSplit(a[1..], b, c);
    }
  }

  lemma {:induction false} NoOccurrences(s: string, c: char)
    requires c !in s
    ensures Occurrences(s, c) == 0
  {
    if s != [] {
      NoOccurrences(s[1..], c);
    }
  }

  /** Splitting yields one more piece than there are separators. */
  lemma {:induction false} SplitCount(s: string, sep: char)
    ensures |Split(s, sep)| == Occurrences(s, sep) + 1
    decreases |s|
  {
    var k := IndexOf(s, sep);
    if k < 0 {
      NoOccurrences(s, sep);
    } else {
      SplitCount(s[k + 1..], sep);
      assert s == s[..k] + ([sep] + s[k + 1..]);
      OccurrencesSplit(s[..k], [sep] + s[k + 1..], sep);
      OccurrencesSplit([sep], s[k + 1..], sep);
      NoOccurrences(s[..k], sep);
    }
  }

  /** Splitting undoes joining, for pieces free of the separator. */
  lemma {:induction false} SplitJoin(parts: seq<string>, sep: char)
    requires |parts| >= 1
    requires forall i :: 0 <= i < |parts| ==> sep !in parts[i]
    ensures Split(Join(parts, sep), sep) == parts
    decreases |parts|
  {
    var s := Join(parts, sep);
    if |parts| == 1 {
      assert IndexOf(s, sep) == -1;
    } else {
      var k := |parts[0]|;
      JoinFirst(parts, sep);
      IndexOfAt(s, sep, k);
      SplitJoin(parts[1..], sep);
      assert [parts[0]] + parts[1..] == parts;
    }
  }

  /** The join of two or more pieces is the first piece, the separator,
      and the join of the others. */
  lemma JoinFirst(parts: seq<string>, sep: char)
    requires |parts| >= 2 && sep !in parts[0]
    ensures var s, k := Join(parts, sep), |parts[0]|;
      && k < |s| && s[k] == sep && s[..k] == parts[0]
      && s[k + 1..] == Join(parts[1..], sep)
  {
    var s := Join(parts, sep);
    var tail := Join(parts[1..], sep);
    assert s == parts[0] + [sep] + tail;
    assert s[..|parts[0]|] == parts[0];
    assert s[|parts[0]| + 1..] == tail;
  }

  // ---------------------------------------------------------------------
  // decimal digits, parseInt, parseFloat

  function DigitValue(c: char): nat
    requires IsDigit(c)
  {
    c as int - '0' as int
  }

  function DigitChar(d: nat): (c: char)
    requires d < 10
    ensures IsDigit(c) && DigitValue(c) == d
  {
    ('0' as int + d) as char
  }

  predicate AllDigits(s: string) {
    forall i :: 0 <= i < |s| ==> IsDigit(s[i])
  }

  /** The value of a string of decimal digits, read most significant first. */
  function DigitsValue(s: string): nat
    requires AllDigits(s)
  {
    if s == [] then 0 else DigitsValue(s[..|s| - 1]) * 10 + DigitValue(s[|s| - 1])
  }

  /** The length of the longest run of decimal digits at the front of s. */
  function DigitRun(s: string): (n: nat)
    ensures n <= |s| && AllDigits(s[..n])
    ensures n < |s| ==> !IsDigit(s[n])
  {
    if s != [] && IsDigit(s[0]) then
      var m := DigitRun(s[1..]);
      assert s[..m + 1] == [s[0]] + s[1..][..m];
      m + 1
    else 0
  }

  /** What parseInt and parseFloat look at after the leading white space:
      the text with one leading sign removed. */
  function Unsigned(t: string): string {
    if t != [] && (t[0] == '+' || t[0] == '-') then t[1..] else t
  }

  /** parseInt(s, 10): skip white space, take an optional sign and the
      longest run of digits; no digit at all gives NaN (None). A negative
      zero is the integer 0. */
  function ParseInt(s: string): (r: Option<int>)
    ensures r.None? <==> (var u := Unsigned(TrimStart(s)); u == [] || !IsDigit(u[0]))
  {
    var t := TrimStart(s);
    var u := Unsigned(t);
    var n := DigitRun(u);
    if n == 0 then None
    else
      var v := DigitsValue(u[..n]);
      var x: int := if t[0] == '-' then -(v as int) else v;
      Some(x)
  }

  /** The NaN test on parseFloat(s): after white space and an optional sign,
      s must begin with "Infinity", a digit, or a point followed by a digit
      (the shortest prefixes of a StrDecimalLiteral). */
  predicate ParsesAsFloat(s: string)
    ensures ParsesAsFloat(s) && ParseInt(s).None? ==>
      var u := Unsigned(TrimStart(s));
      StartsWith(u, "Infinity") || (|u| >= 2 && u[0] == '.')
  {
    var u := Unsigned(TrimStart(s));
    StartsWith(u, "Infinity") || (u != [] && IsDigit(u[0])) || (|u| >= 2 && u[0] == '.' && IsDigit(u[1]))
  }

  /** parseInt reads back every integer a template literal prints. */
  lemma IntToStringRoundTrip(x: int)
    ensures ParseInt(IntToString(x)) == Some(x)
  {
    if x < 0 {
      ParseIntOfNegated(-x, []);
      assert "-" + NatToString(-x) + [] == IntToString(x);
    } else {
      ParseIntOfNat(x, []);
      assert NatToString(x) + [] == IntToString(x);
    }
  }

  /** Every string parseInt reads as a number, parseFloat reads as a number
      too: a cost token accepted as an integer is never "inválido". */
  lemma IntegerIsFloat(s: string)
    requires ParseInt(s).Some?
    ensures ParsesAsFloat(s)
  {
  }

  /** The decimal representation of n, without leading zeros. */
  function NatToString(n: nat): (r: string)
    ensures r != [] && AllDigits(r)
    ensures r[0] != '0' || n == 0
  {
    if n < 10 then [DigitChar(n)] else NatToString(n / 10) + [DigitChar(n % 10)]
  }

  /** Number-to-string for integers, as a template literal prints them:
      a minus sign exactly for a negative number. */
  function IntToString(x: int): (r: string)
    ensures r != [] && (r[0] == '-' <==> x < 0)
  {
    if x < 0 then "-" + NatToString(-x) else NatToString(x)
  }

  lemma {:induction false} DigitsOfNat(n: nat)
    ensures DigitsValue(NatToString(n)) == n
    decreases n
  {
    var s := NatToString(n);
    if n >= 10 {
      DigitsOfNat(n / 10);
      assert s[..|s| - 1] == NatToString(n / 10);
    }
  }

  /** parseInt reads a run of digits, after an optional minus sign, up to
      the first character that is not a digit. */
  lemma ParseIntOfDigits(d: string, rest: string)
    requires d != [] && AllDigits(d)
    requires rest == [] || !IsDigit(rest[0])
    ensures ParseInt(d + rest) == Some(DigitsValue(d) as int)
  {
    var s := d + rest;
    TrimStartKeeps(s);
    assert Unsigned(s) == s;
    DigitRunOf(d, rest);
    assert s[..|d|] == d;
  }

  lemma NegParseIntOfDigits(m: string, d: string, rest: string)
    requires d != [] && AllDigits(d)
    requires rest == [] || !IsDigit(rest[0])
    requires m == ['-'] + (d + rest)
    ensures ParseInt(m) == Some(-(DigitsValue(d) as int))
  {
    var s := d + rest;
    assert m[0] == '-' && m[1..] == s;
    TrimStartKeeps(m);
    assert Unsigned(m) == s;
    DigitRunOf(d, rest);
    assert s[..|d|] == d;
  }

  lemma TrimStartKeeps(s: string)
    requires s != [] && (s[0] == '-' || IsDigit(s[0]))
    ensures TrimStart(s) == s
  {
    assert !IsSpace(s[0]);
  }

  /** parseInt reads back what NatToString writes and stops at the first
      character that is not a digit. */
  lemma ParseIntOfNat(n: nat, rest: string)
    requires rest == [] || !IsDigit(rest[0])
    ensures ParseInt(NatToString(n) + rest) == Some(n)
  {
    var d := NatToString(n);
    assert DigitsValue(d) == n by {
      DigitsOfNat(n);
    }
    ParseIntOfDigits(d, rest);
  }

  /** The same with a minus sign in front. */
  lemma ParseIntOfNegated(n: nat, rest: string)
    requires rest == [] || !IsDigit(rest[0])
    ensures ParseInt("-" + NatToString(n) + rest) == Some(-(n as int))
  {
    var d := NatToString(n);
    assert DigitsValue(d) == n by {
      DigitsOfNat(n);
    }
    var m := "-" + d + rest;
    assert m == ['-'] + (d + rest);
    NegParseIntOfDigits(m, d, rest);
  }

  lemma {:induction false} DigitRunOf(d: string, rest: string)
    requires AllDigits(d)
    requires rest == [] || !IsDigit(rest[0])
    ensures DigitRun(d + rest) == |d|
    decreases |d|
  {
    if d != [] {
      assert (d + rest)[1..] == d[1..] + rest;
      DigitRunOf(d[1..], rest);
    }
  }
}
