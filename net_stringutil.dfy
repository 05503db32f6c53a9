/**
 * net/mantucon/baracus/util/StringUtil.java: small string helpers used by
 * the validators and the validation registry.
 */
module NetStringUtil {
  import opened JavaLang

  /** Why a helper threw. */
  datatype StringError = StringIndexOutOfBounds

  /**
   * firstByteToLower: the first character lower-cased, the rest unchanged;
   * substring(0, 1) throws on the empty string.
   */
  function FirstByteToLower(s: string): (r: Result<string, StringError>)
    ensures r.Failure? <==> s == []
    ensures r.Success? ==> |r.value| == |s| && r.value[0] == ToLowerAscii(s[0]) && r.value[1..] == s[1..]
  {
    if |s| == 0 then Failure(StringIndexOutOfBounds) else Success([ToLowerAscii(s[0])] + s[1..])
  }

  /** toArray: no element for null or "", otherwise the input as the only element. */
  function ToArray(input: Option<string>): (r: seq<string>)
    ensures |r| <= 1
    ensures |r| == 0 <==> input.None? || input.value == []
    ensures |r| == 1 ==> r[0] == input.value
  {
    if input.Some? && |input.value| > 0 then [input.value] else []
  }

  /**
   * join as written: builds Terminated(strings, ", "), then takes
   * substring(1, length - 2), which throws when fewer than three
   * characters were appended.
   */
  method Join(strings: seq<string>) returns (r: Result<string, StringError>)
    ensures r.Failure? <==> |Terminated(strings, ", ")| < 3
    ensures r.Success? ==> r.value == Terminated(strings, ", ")[1..|Terminated(strings, ", ")| - 2]
  {
    var builder: string := [];
    var i := 0;
    while i < |strings|
      invariant 0 <= i <= |strings|
      invariant builder == Terminated(strings[..i], ", ")
    {
      assert strings[..i + 1][..i] == strings[..i];
      builder := builder + strings[i] + ", ";
      i := i + 1;
    }
    assert strings[..i] == strings;
    if |builder| < 3 {
      return Failure(StringIndexOutOfBounds);
    }
    r := Success(builder[1..|builder| - 2]);
  }

  /**
   * join drops the first character of the first element: for a list whose
   * first element is non-empty the result is the ", "-joined text without
   * its first character.
   */
  lemma JoinDropsFirstCharacter(strings: seq<string>)
    requires |strings| > 0 && |strings[0]| > 0
    ensures |Terminated(strings, ", ")| >= 3
    ensures Terminated(strings, ", ")[1..|Terminated(strings, ", ")| - 2] == JoinedBy(strings, ", ")[1..]
  {
    TerminatedIsJoinedPlusSep(strings, ", ");
    JoinedStartsWithFirst(strings, ", ");
  }

  /** The documented example: ["ab", "cd"] joins to "b, cd". */
  lemma JoinExample()
    ensures Terminated(["ab", "cd"], ", ")[1..|Terminated(["ab", "cd"], ", ")| - 2] == "b, cd"
  {
    assert Terminated(["ab", "cd"], ", ") == "ab, cd, " by {
      assert ["ab", "cd"][..1] == ["ab"];
      assert Terminated(["ab"], ", ") == Terminated([], ", ") + "ab" + ", ";
    }
  }

  /** The corrected join: the elements separated by ", ", the empty list giving "". */
  function JoinCorrected(strings: seq<string>): (r: string)
    ensures |strings| > 0 ==> r + ", " == Terminated(strings, ", ")
    ensures |strings| == 0 ==> r == []
  {
    if |strings| > 0 then TerminatedIsJoinedPlusSep(strings, ", "); JoinedBy(strings, ", ") else []
  }

  /** What splitPurified computes: None for null or "", otherwise the trimmed pieces of s.split(delim). */
  function Purified(s: Option<string>, delim: char): Option<seq<string>>
  {
    if s.None? || s.value == [] then None
    else
      var pieces := Split(s.value, delim);
      Some(seq(|pieces|, i requires 0 <= i < |pieces| => Trim(pieces[i])))
  }

  /** Purified is null exactly for null or "", and otherwise has one trimmed element per piece of the split. */
  lemma PurifiedPieces(s: Option<string>, delim: char)
    ensures Purified(s, delim).None? <==> s.None? || s.value == []
    ensures Purified(s, delim).Some? ==> |Purified(s, delim).value| == |Split(s.value, delim)|
    ensures Purified(s, delim).Some? ==>
      forall i :: 0 <= i < |Purified(s, delim).value| ==> Purified(s, delim).value[i] == Trim(Split(s.value, delim)[i])
  {
  }

  /** A list with one trimmed element per piece of the split is the purified list. */
  lemma PurifiedFromPieces(s: Option<string>, delim: char, xs: seq<string>)
    requires s.Some? && s.value != []
    requires |xs| == |Split(s.value, delim)|
    requires forall k :: 0 <= k < |xs| ==> xs[k] == Trim(Split(s.value, delim)[k])
    ensures Purified(s, delim) == Some(xs)
  {
    assert xs == Purified(s, delim).value;
  }

  /**
   * splitPurified: null for null or "", otherwise one trimmed string per
   * piece of s.split(delim), filled into an array by index.
   */
  method SplitPurified(s: Option<string>, delim: char) returns (r: Option<seq<string>>)
    ensures r == Purified(s, delim)
  {
    if s.None? || |s.value| == 0 {
      return None;
    }
    var input := Split(s.value, delim);
    var result := TrimEach(input);
    PurifiedFromPieces(s, delim, result[..]);
    r := Some(result[..]);
  }

  /** The loop of splitPurified: a new array holding each piece trimmed, at the same index. */
  method TrimEach(input: seq<string>) returns (result: array<string>)
    ensures fresh(result) && result.Length == |input|
    ensures forall k :: 0 <= k < |input| ==> result[k] == Trim(input[k])
  {
    result := new string[|input|];
    var i := 0;
    while i < |input|
      invariant 0 <= i <= |input|
      invariant forall k :: 0 <= k < i ==> result[k] == Trim(input[k])
    {
      result[i] := Trim(input[i]);
      i := i + 1;
    }
  }

  /** splitPurified("a, b", ",") splits into "a" and " b" and trims the second to "b". */
  lemma SplitPurifiedExample()
    ensures Split("a, b", ',') == ["a", " b"]
    ensures Trim(" b") == "b"
  {
    assert "a, b"[1] == ',';
    assert RawPieces("a, b", ',') == ["a", " b"] by {
      assert "a, b"[1..] == ", b" && ", b"[1..] == " b" && " b"[1..] == "b" && "b"[1..] == "";
      assert RawPieces("", ',') == [[]];
      assert RawPieces("b", ',') == ["b"];
      assert RawPieces(" b", ',') == [" b"];
      assert RawPieces(", b", ',') == [[], " b"];
      assert RawPieces("a, b", ',') == [['a'] + RawPieces(", b", ',')[0]] + RawPieces(", b", ',')[1..];
      assert ['a'] + [] == "a";
    }
  }
}
