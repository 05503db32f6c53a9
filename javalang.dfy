/**
 * The parts of java.lang and java.util that the framework code relies on,
 * stated once so that every module models them the same way: nullable
 * values, exceptions as results, 32-bit arithmetic, and the String
 * operations trim, replace, split, startsWith, hashCode and the decimal
 * conversions of Integer.
 */
module JavaLang {

  /** A Java reference that may be null. */
  datatype Option<T> = None | Some(value: T)

  /** A Java call that either returns a value or throws. */
  datatype Result<T, E> = Success(value: T) | Failure(error: E)
  {
    predicate IsFailure() { Failure? }
  }

  // ---------------------------------------------------------------------
  // 32-bit and 64-bit integers
  // ---------------------------------------------------------------------

  const INT_MIN: int := -0x8000_0000
  const INT_MAX: int := 0x7FFF_FFFF
  const TWO32: int := 0x1_0000_0000
  const TWO64: int := 0x1_0000_0000_0000_0000

  /** What the framework reads of a java.lang.Class: its simple name and the name of its package. */
  datatype ClassRef = ClassRef(simpleName: string, packageName: string)

  /**
   * The runtime class of an object: its qualified name and the qualified
   * names of every class and interface above it.
   */
  datatype JavaClass = JavaClass(name: string, supertypes: set<string>)

  /** Class.getSimpleName of a top-level class: the qualified name after its last '.'. */
  function SimpleName(name: string): (r: string)
    ensures |r| <= |name| && '.' !in r
    ensures forall i :: 0 <= i < |r| ==> r[i] == name[|name| - |r| + i]
    ensures |r| < |name| ==> name[|name| - |r| - 1] == '.'
  {
    if |name| == 0 || name[|name| - 1] == '.' then [] else SimpleName(name[..|name| - 1]) + [name[|name| - 1]]
  }

  /** instanceof: the class itself or one of its supertypes. */
  predicate InstanceOf(c: JavaClass, t: string)
  {
    t == c.name || t in c.supertypes
  }

  /** String.valueOf(boolean). */
  function BoolToString(b: bool): string
  {
    if b then "true" else "false"
  }

  /** Character.toLowerCase restricted to ASCII letters. */
  function ToLowerAscii(c: char): (r: char)
    ensures 'A' <= c <= 'Z' ==> r as int == c as int + 32
    ensures !('A' <= c <= 'Z') ==> r == c
  {
    if 'A' <= c <= 'Z' then (c as int + 32) as char else c
  }

  /** No element of the sequence occurs twice. */
  predicate Distinct<T(==)>(s: seq<T>)
  {
    forall i, j :: 0 <= i < j < |s| ==> s[i] != s[j]
  }

  /** s ends with t. */
  predicate EndsWith<T(==)>(s: seq<T>, t: seq<T>)
  {
    |t| <= |s| && s[|s| - |t|..] == t
  }

  /** Whatever is appended is what the sequence then ends with, and an earlier ending grows by it. */
  lemma EndsWithAppend<T>(s: seq<T>, t: seq<T>, u: seq<T>)
    ensures EndsWith(s + u, u)
    ensures EndsWith(s, t) ==> EndsWith(s + u, t + u)
  {
    assert (s + u)[|s + u| - |u|..] == u;
    if EndsWith(s, t) {
      assert (s + u)[|s + u| - |t + u|..] == s[|s| - |t|..] + u;
    }
  }

  predicate IsInt32(x: int) { INT_MIN <= x <= INT_MAX }

  /** Java's wrap-around of an int expression to 32 bits. */
  function Wrap32(x: int): (r: int)
    ensures IsInt32(r)
    ensures (r - x) % TWO32 == 0
    ensures IsInt32(x) ==> r == x
  {
    (x - INT_MIN) % TWO32 + INT_MIN
  }

  /** Long.hashCode: (int)(value ^ (value >>> 32)) on the two's-complement bits. */
  function LongHash(v: int): (r: int)
    ensures IsInt32(r)
  {
    var bits := (v % TWO64) as bv64;
    var folded := bits ^ (bits >> 32);
    Wrap32((folded & 0xFFFF_FFFF) as int)
  }

  // ---------------------------------------------------------------------
  // Strings
  // ---------------------------------------------------------------------

  /** String.hashCode: s[0]*31^(n-1) + ... + s[n-1], in 32-bit arithmetic. */
  function StringHash(s: string): (r: int)
    ensures IsInt32(r)
    ensures s == [] ==> r == 0
  {
    if |s| == 0 then 0 else Wrap32(31 * StringHash(s[..|s| - 1]) + s[|s| - 1] as int)
  }

  /** String.valueOf / concatenation of a possibly null string: null renders as "null". */
  function ValueOf(s: Option<string>): string
  {
    if s.Some? then s.value else "null"
  }

  /**
   * What a StringBuilder holds after appending each element followed by
   * sep, as the framework's join loops do.
   */
  function Terminated(xs: seq<string>, sep: string): (r: string)
    ensures |r| >= |xs| * |sep|
  {
    if |xs| == 0 then [] else Terminated(xs[..|xs| - 1], sep) + xs[|xs| - 1] + sep
  }

  /** The elements separated by sep (String.join). */
  function JoinedBy(xs: seq<string>, sep: string): string
  {
    if |xs| == 0 then []
    else if |xs| == 1 then xs[0]
    else JoinedBy(xs[..|xs| - 1], sep) + sep + xs[|xs| - 1]
  }

  /** Joining one more element appends the separator (unless it is the first) and the element. */
  lemma JoinedBySnoc(xs: seq<string>, x: string, sep: string)
    ensures JoinedBy(xs + [x], sep) == (if |xs| == 0 then "" else JoinedBy(xs, sep) + sep) + x
  {
    assert (xs + [x])[..|xs|] == xs;
  }

  /** Appending a separator after every element is joining plus one trailing separator. */
  lemma {:induction false} TerminatedIsJoinedPlusSep(xs: seq<string>, sep: string)
    requires |xs| > 0
    ensures Terminated(xs, sep) == JoinedBy(xs, sep) + sep
  {
    if |xs| > 1 {
      TerminatedIsJoinedPlusSep(xs[..|xs| - 1], sep);
    } else {
      assert Terminated(xs, sep) == Terminated([], sep) + xs[0] + sep;
    }
  }

  /** The joined text starts with the first element. */
  lemma {:induction false} JoinedStartsWithFirst(xs: seq<string>, sep: string)
    requires |xs| > 0
    ensures |JoinedBy(xs, sep)| >= |xs[0]| && JoinedBy(xs, sep)[..|xs[0]|] == xs[0]
  {
    if |xs| > 1 {
      JoinedStartsWithFirst(xs[..|xs| - 1], sep);
    }
  }

  /**
   * The loop-built text with its last character cut off, as
   * substring(0, length() - 1) does: the elements joined by a
   * one-character separator.
   */
  lemma CutLastIsJoined(xs: seq<string>, sep: string)
    requires |xs| > 0 && |sep| == 1
    ensures |Terminated(xs, sep)| > 0
    ensures Terminated(xs, sep)[..|Terminated(xs, sep)| - 1] == JoinedBy(xs, sep)
  {
    TerminatedIsJoinedPlusSep(xs, sep);
  }

  predicate StartsWith(s: string, prefix: string)
  {
    |prefix| <= |s| && s[..|prefix|] == prefix
  }

  /** The characters String.trim removes: every code point up to and including the space. */
  predicate IsTrimmable(c: char) { c <= ' ' }

  function TrimLeading(s: string): string
  {
    if |s| > 0 && IsTrimmable(s[0]) then TrimLeading(s[1..]) else s
  }

  /** TrimLeading drops exactly the leading trimmable characters: a suffix of s that does not start with one. */
  lemma {:induction false} TrimLeadingSpec(s: string)
    ensures |TrimLeading(s)| <= |s| && TrimLeading(s) == s[|s| - |TrimLeading(s)|..]
    ensures |TrimLeading(s)| > 0 ==> !IsTrimmable(TrimLeading(s)[0])
    ensures forall i :: 0 <= i < |s| - |TrimLeading(s)| ==> IsTrimmable(s[i])
    decreases |s|
  {
    if |s| > 0 && IsTrimmable(s[0]) {
      var tail := s[1..];
      TrimLeadingSpec(tail);
      var r := TrimLeading(tail);
      assert TrimLeading(s) == r;
      var k := |s| - |r|;
      assert r == tail[|tail| - |r|..];
      assert |tail[|tail| - |r|..]| == |s[k..]|;
      assert forall j :: 0 <= j < |r| ==> tail[|tail| - |r|..][j] == s[k..][j];
      forall i | 0 <= i < k
        ensures IsTrimmable(s[i])
      {
        if i > 0 {
          assert s[i] == tail[i - 1];
        }
      }
    }
  }

  function TrimTrailing(s: string): string
  {
    if |s| > 0 && IsTrimmable(s[|s| - 1]) then TrimTrailing(s[..|s| - 1]) else s
  }

  /** TrimTrailing drops exactly the trailing trimmable characters: a prefix of s that does not end with one. */
  lemma {:induction false} TrimTrailingSpec(s: string)
    ensures |TrimTrailing(s)| <= |s| && TrimTrailing(s) == s[..|TrimTrailing(s)|]
    ensures |TrimTrailing(s)| > 0 ==> !IsTrimmable(TrimTrailing(s)[|TrimTrailing(s)| - 1])
    ensures forall i :: |TrimTrailing(s)| <= i < |s| ==> IsTrimmable(s[i])
    decreases |s|
  {
    if |s| > 0 && IsTrimmable(s[|s| - 1]) {
      TrimTrailingSpec(s[..|s| - 1]);
      assert s[..|s| - 1][..|TrimTrailing(s)|] == s[..|TrimTrailing(s)|];
      forall i | |TrimTrailing(s)| <= i < |s|
        ensures IsTrimmable(s[i])
      {
        if i < |s| - 1 {
          assert s[i] == s[..|s| - 1][i];
        }
      }
    }
  }

  /** String.trim. */
  function Trim(s: string): string
  {
    TrimTrailing(TrimLeading(s))
  }

  /** A string is blank for trim() exactly when every character is trimmable. */
  lemma TrimEmptyIff(s: string)
    ensures Trim(s) == [] <==> forall i :: 0 <= i < |s| ==> IsTrimmable(s[i])
  {
    var l := TrimLeading(s);
    TrimLeadingSpec(s);
    TrimTrailingSpec(l);
    if Trim(s) == [] {
      assert |l| == 0;
    } else {
      assert |l| > 0;
    }
  }

  /** trim() leaves a string alone when neither end is trimmable. */
  lemma TrimUntrimmedEnds(s: string)
    requires |s| > 0 ==> !IsTrimmable(s[0]) && !IsTrimmable(s[|s| - 1])
    ensures Trim(s) == s
  {
    TrimLeadingSpec(s);
    TrimTrailingSpec(TrimLeading(s));
  }

  /** String.replace(CharSequence, CharSequence): every non-overlapping occurrence, left to right. */
  function Replace(s: string, target: string, replacement: string): string
    requires |target| > 0
    decreases |s|
  {
    if |s| < |target| then s
    else if s[..|target|] == target then replacement + Replace(s[|target|..], target, replacement)
    else [s[0]] + Replace(s[1..], target, replacement)
  }

  predicate Occurs(target: string, s: string)
  {
    exists i :: 0 <= i <= |s| && StartsWith(s[i..], target)
  }

  /** Replacing a target that does not occur leaves the string unchanged. */
  lemma {:induction false} ReplaceAbsent(s: string, target: string, replacement: string)
    requires |target| > 0
    requires !Occurs(target, s)
    ensures Replace(s, target, replacement) == s
    decreases |s|
  {
    if |s| >= |target| {
      assert s[0..] == s;
      assert !Occurs(target, s[1..]) by {
        forall i | 0 <= i <= |s[1..]|
          ensures !StartsWith(s[1..][i..], target)
        {
          assert s[1..][i..] == s[i + 1..];
        }
      }
      ReplaceAbsent(s[1..], target, replacement);
    }
  }

  /** The characters Java's regular expression "." does not match (no DOTALL). */
  predicate IsLineTerminator(c: char)
  {
    c == '\n' || c == '\r' || c == '\U{0085}' || c == '\U{2028}' || c == '\U{2029}'
  }

  /** Java's split drops trailing empty strings. */
  function DropTrailingEmpty(pieces: seq<string>): (r: seq<string>)
    ensures |r| <= |pieces| && forall i :: 0 <= i < |r| ==> r[i] == pieces[i]
    ensures |r| > 0 ==> r[|r| - 1] != []
    ensures forall i :: |r| <= i < |pieces| ==> pieces[i] == []
  {
    if |pieces| > 0 && pieces[|pieces| - 1] == [] then DropTrailingEmpty(pieces[..|pieces| - 1]) else pieces
  }

  /** The pieces of s between occurrences of the single character d, before any are dropped. */
  function RawPieces(s: string, d: char): (r: seq<string>)
    ensures |r| > 0
    ensures forall i, j :: 0 <= i < |r| && 0 <= j < |r[i]| ==> r[i][j] != d
    ensures d !in s ==> r == [s]
  {
    if |s| == 0 then [[]]
    else
      var rest := RawPieces(s[1..], d);
      assert s == [s[0]] + s[1..];
      if s[0] == d then [[]] + rest
      else [[s[0]] + rest[0]] + rest[1..]
  }

  /**
   * String.split with a one-character literal separator (not a regex
   * metacharacter): no occurrence gives [s]; otherwise the pieces, with
   * trailing empty strings dropped.
   */
  function Split(s: string, d: char): (r: seq<string>)
    ensures forall i, j :: 0 <= i < |r| && 0 <= j < |r[i]| ==> r[i][j] != d
    ensures d !in s ==> r == [s]
  {
    if d !in s then [s] else DropTrailingEmpty(RawPieces(s, d))
  }

  /**
   * The pieces String.split(".") computes: every character except a line
   * terminator is a separator, so the pieces are runs of line terminators.
   */
  function RawDotPieces(s: string): (r: seq<string>)
    ensures |r| > 0
  {
    if |s| == 0 then [[]]
    else
      var rest := RawDotPieces(s[1..]);
      if !IsLineTerminator(s[0]) then [[]] + rest
      else [[s[0]] + rest[0]] + rest[1..]
  }

  /** String.split("."): no match (every character a line terminator, or s empty) gives [s]. */
  function SplitOnAnyChar(s: string): seq<string>
  {
    if forall i :: 0 <= i < |s| ==> IsLineTerminator(s[i]) then [s]
    else DropTrailingEmpty(RawDotPieces(s))
  }

  lemma {:induction false} RawDotPiecesEmpty(s: string)
    requires forall i :: 0 <= i < |s| ==> !IsLineTerminator(s[i])
    ensures forall k :: 0 <= k < |RawDotPieces(s)| ==> RawDotPieces(s)[k] == []
  {
    if |s| > 0 {
      RawDotPiecesEmpty(s[1..]);
    }
  }

  /**
   * The only string without line terminators that split(".") leaves
   * non-empty is the empty string: for "org.baracus" the result is an
   * empty array.
   */
  lemma SplitOnAnyCharNonEmptyIff(s: string)
    requires forall i :: 0 <= i < |s| ==> !IsLineTerminator(s[i])
    ensures |SplitOnAnyChar(s)| > 0 <==> s == []
  {
    if s != [] {
      assert !IsLineTerminator(s[0]);
      RawDotPiecesEmpty(s);
    }
  }

  // ---------------------------------------------------------------------
  // Decimal conversions (Integer.parseInt, String.valueOf)
  // ---------------------------------------------------------------------

  predicate IsDigit(c: char) { '0' <= c <= '9' }

  predicate AllDigits(s: string) { forall i :: 0 <= i < |s| ==> IsDigit(s[i]) }

  function DigitsValue(s: string): nat
    requires AllDigits(s)
  {
    if |s| == 0 then 0 else 10 * DigitsValue(s[..|s| - 1]) + (s[|s| - 1] as int - '0' as int)
  }

  function DigitChar(d: nat): (c: char)
    requires d < 10
    ensures IsDigit(c) && c as int - '0' as int == d
  {
    ('0' as int + d) as char
  }

  /** The shortest decimal rendering of n. */
  function NatToString(n: nat): (r: string)
    ensures |r| > 0 && AllDigits(r)
  {
    if n < 10 then [DigitChar(n)] else NatToString(n / 10) + [DigitChar(n % 10)]
  }

  /** String.valueOf(int) / Long.toString. */
  function IntToString(n: int): (r: string)
    ensures |r| > 0
  {
    if n < 0 then "-" + NatToString(-n) else NatToString(n)
  }

  /** Integer.parseInt(s, 10) on ASCII digits: an optional sign, at least one digit, 32-bit range. */
  function ParseInt(s: string): (r: Option<int>)
    ensures r.Some? ==> IsInt32(r.value) && |s| > 0
  {
    if |s| == 0 then None
    else if s[0] == '-' || s[0] == '+' then
      if |s| == 1 || !AllDigits(s[1..]) then None
      else
        var v: int := if s[0] == '-' then 0 - DigitsValue(s[1..]) as int else DigitsValue(s[1..]);
        if IsInt32(v) then Some(v) else None
    else if AllDigits(s) && DigitsValue(s) <= INT_MAX then Some(DigitsValue(s))
    else None
  }

  lemma {:induction false} NatToStringValue(n: nat)
    ensures DigitsValue(NatToString(n)) == n
  {
    if n >= 10 {
      var s := NatToString(n);
      assert s[..|s| - 1] == NatToString(n / 10);
      NatToStringValue(n / 10);
    }
  }

  /** parseInt accepts the decimal rendering of every int and gives it back. */
  lemma ParseIntToString(n: int)
    requires IsInt32(n)
    ensures ParseInt(IntToString(n)) == Some(n)
  {
    var s := IntToString(n);
    if n < 0 {
      assert s[1..] == NatToString(-n);
      NatToStringValue(-n);
    } else {
      NatToStringValue(n);
      assert IsDigit(s[0]);
    }
  }
}
