/**
 * The "$1".."$n" substitution that both Loggers (processMessageArgs) and
 * both application contexts (resolveString) perform in a loop: for
 * k = 1..n in turn, every occurrence of "$k" is replaced by the k-th
 * argument's text. This module states the result once; each loop is
 * proved against it.
 */
module MessageArgs {
  import opened JavaLang

  /** The placeholder "$k" ("$" + (i + 1) in the loops). */
  function Placeholder(k: nat): (p: string)
    ensures |p| >= 2 && p[0] == '$'
  {
    "$" + IntToString(k)
  }

  /** The text after replacing "$1", then "$2", ..., then "$n", n = |args|. */
  function Substituted(message: string, args: seq<string>): string
  {
    if |args| == 0 then message
    else Replace(Substituted(message, args[..|args| - 1]), Placeholder(|args|), args[|args| - 1])
  }

  /** A text without '$' holds no placeholder. */
  lemma NoDollarNoPlaceholder(s: string, p: string)
    requires |p| > 0 && p[0] == '$' && '$' !in s
    ensures !Occurs(p, s)
  {
    forall i | 0 <= i <= |s|
      ensures !StartsWith(s[i..], p)
    {
      if i < |s| {
        assert s[i..][0] == s[i];
        assert s[i] in s;
      }
    }
  }

  /** A message without '$' comes back unchanged, whatever the arguments. */
  lemma {:induction false} DollarFreeUnchanged(message: string, args: seq<string>)
    requires '$' !in message
    ensures Substituted(message, args) == message
  {
    if |args| > 0 {
      DollarFreeUnchanged(message, args[..|args| - 1]);
      NoDollarNoPlaceholder(message, Placeholder(|args|));
      ReplaceAbsent(message, Placeholder(|args|), args[|args| - 1]);
    }
  }

  /** Replacing leaves a prefix alone that cannot start the target. */
  lemma {:induction false} ReplaceAfterPrefix(p: string, q: string, target: string, replacement: string)
    requires |target| > 0 && target[0] !in p
    ensures Replace(p + q, target, replacement) == p + Replace(q, target, replacement)
    decreases |p|
  {
    if |p| > 0 {
      assert (p + q)[0] == p[0];
      assert (p + q)[1..] == p[1..] + q;
      assert p[0] in p;
      ReplaceAfterPrefix(p[1..], q, target, replacement);
      assert p == [p[0]] + p[1..];
    } else {
      assert p + q == q;
    }
  }

  /** A string shorter than the target is left alone. */
  lemma ReplaceShort(s: string, target: string, replacement: string)
    requires 0 < |target| && |s| < |target|
    ensures Replace(s, target, replacement) == s
  {
  }

  /** The target at the front is replaced, then replacing goes on after it. */
  lemma ReplaceAtFront(q: string, target: string, replacement: string)
    requires |target| > 0
    ensures Replace(target + q, target, replacement) == replacement + Replace(q, target, replacement)
  {
    assert (target + q)[..|target|] == target;
    assert (target + q)[|target|..] == q;
  }

  /** A placeholder-shaped prefix other than the target is copied over. */
  lemma ReplaceSkipsMismatch(x: string, q: string, target: string, replacement: string)
    requires |x| == |target| > 0 && x != target && x[0] == target[0] && target[0] !in x[1..]
    ensures Replace(x + q, target, replacement) == x + Replace(q, target, replacement)
  {
    var s := x + q;
    assert s[..|target|] == x;
    assert Replace(s, target, replacement) == [s[0]] + Replace(s[1..], target, replacement);
    assert s[1..] == x[1..] + q;
    ReplaceAfterPrefix(x[1..], q, target, replacement);
    assert [s[0]] + (x[1..] + Replace(q, target, replacement)) == x + Replace(q, target, replacement) by {
      assert x == [x[0]] + x[1..];
    }
  }

  /** Once no '$' is left, the later placeholders change nothing. */
  lemma {:induction false} SubstitutedFrozen(message: string, args: seq<string>, j: nat)
    requires j <= |args| && '$' !in Substituted(message, args[..j])
    ensures Substituted(message, args) == Substituted(message, args[..j])
    decreases |args| - j
  {
    if j < |args| {
      var t := Substituted(message, args[..j]);
      assert args[..j + 1][..j] == args[..j];
      NoDollarNoPlaceholder(t, Placeholder(j + 1));
      ReplaceAbsent(t, Placeholder(j + 1), args[j]);
      SubstitutedFrozen(message, args, j + 1);
    } else {
      assert args[..j] == args;
    }
  }

  /** A two-character token such as "$2": '$' followed by something else. */
  predicate IsToken(x: string)
  {
    |x| == 2 && x[0] == '$' && x[1] != '$'
  }

  /** What replacing `target` by `replacement` makes of a token. */
  function TokenAfter(x: string, target: string, replacement: string): string
  {
    if x == target then replacement else x
  }

  lemma ReplaceToken(x: string, q: string, target: string, replacement: string)
    requires IsToken(x) && IsToken(target)
    ensures Replace(x + q, target, replacement) == TokenAfter(x, target, replacement) + Replace(q, target, replacement)
  {
    if x == target {
      ReplaceAtFront(q, target, replacement);
    } else {
      assert x[1..] == [x[1]];
      ReplaceSkipsMismatch(x, q, target, replacement);
    }
  }

  /** A message cut into plain texts (no '$') and tokens. */
  datatype Piece = Text(text: string) | Tok(token: string)

  predicate WellFormed(ps: seq<Piece>)
  {
    forall i :: 0 <= i < |ps| ==> if ps[i].Text? then '$' !in ps[i].text else IsToken(ps[i].token)
  }

  function Render(p: Piece): string
  {
    if p.Text? then p.text else p.token
  }

  function Flatten(ps: seq<Piece>): string
  {
    if |ps| == 0 then [] else Render(ps[0]) + Flatten(ps[1..])
  }

  /** The pieces after one replace: the matching tokens become text. */
  function ReplacePieces(ps: seq<Piece>, target: string, replacement: string): seq<Piece>
  {
    seq(|ps|, i requires 0 <= i < |ps| => if ps[i] == Tok(target) then Text(replacement) else ps[i])
  }

  /** Replacing a token in a cut-up message works piece by piece. */
  lemma {:induction false} ReplaceByPieces(ps: seq<Piece>, target: string, replacement: string)
    requires WellFormed(ps) && IsToken(target)
    ensures Replace(Flatten(ps), target, replacement) == Flatten(ReplacePieces(ps, target, replacement))
  {
    if |ps| > 0 {
      assert WellFormed(ps[1..]) by {
        forall i | 0 <= i < |ps[1..]| ensures ps[1..][i] == ps[i + 1] { }
      }
      ReplaceByPieces(ps[1..], target, replacement);
      assert ReplacePieces(ps, target, replacement) ==
        [ReplacePieces(ps, target, replacement)[0]] + ReplacePieces(ps[1..], target, replacement);
      assert WellFormed(ps[..1]) ==> true;
      var rest := Flatten(ps[1..]);
      if ps[0].Text? {
        assert '$' !in ps[0].text;
        ReplaceAfterPrefix(ps[0].text, rest, target, replacement);
      } else {
        assert IsToken(ps[0].token);
        ReplaceToken(ps[0].token, rest, target, replacement);
      }
    }
  }

  // LoggerTest's message cut into pieces, and the pieces after each replace.
  const EXAMPLE_0: seq<Piece> := [Tok("$1"), Text(" times "), Tok("$2"), Text(" makes "), Tok("$3")]
  const EXAMPLE_1: seq<Piece> := [Text("4"), Text(" times "), Tok("$2"), Text(" makes "), Tok("$3")]
  const EXAMPLE_2: seq<Piece> := [Text("4"), Text(" times "), Text("3"), Text(" makes "), Tok("$3")]
  const EXAMPLE_3: seq<Piece> := [Text("4"), Text(" times "), Text("3"), Text(" makes "), Text("12")]

  lemma ExampleText0()
    ensures Flatten(EXAMPLE_0) == "$1 times $2 makes $3"
  {
  }

  lemma ExampleText1()
    ensures Flatten(EXAMPLE_1) == "4 times $2 makes $3"
  {
  }

  lemma ExampleText2()
    ensures Flatten(EXAMPLE_2) == "4 times 3 makes $3"
  {
  }

  lemma ExampleText3()
    ensures Flatten(EXAMPLE_3) == "4 times 3 makes 12"
  {
  }

  lemma ExamplePieces1()
    ensures WellFormed(EXAMPLE_0) && ReplacePieces(EXAMPLE_0, "$1", "4") == EXAMPLE_1
  {
  }

  lemma ExamplePieces2()
    ensures WellFormed(EXAMPLE_1) && ReplacePieces(EXAMPLE_1, "$2", "3") == EXAMPLE_2
  {
  }

  lemma ExamplePieces3()
    ensures WellFormed(EXAMPLE_2) && ReplacePieces(EXAMPLE_2, "$3", "12") == EXAMPLE_3
  {
  }

  /** One replace on a cut-up message, read off its pieces. */
  lemma ReplaceStep(ps: seq<Piece>, target: string, replacement: string, next: seq<Piece>)
    requires WellFormed(ps) && IsToken(target) && ReplacePieces(ps, target, replacement) == next
    ensures Replace(Flatten(ps), target, replacement) == Flatten(next)
  {
    ReplaceByPieces(ps, target, replacement);
  }

  lemma ExampleFirstReplace()
    ensures Replace("$1 times $2 makes $3", "$1", "4") == "4 times $2 makes $3"
  {
    ExamplePieces1();
    ReplaceStep(EXAMPLE_0, "$1", "4", EXAMPLE_1);
    ExampleText0();
    ExampleText1();
  }

  lemma ExampleSecondReplace()
    ensures Replace("4 times $2 makes $3", "$2", "3") == "4 times 3 makes $3"
  {
    ExamplePieces2();
    ReplaceStep(EXAMPLE_1, "$2", "3", EXAMPLE_2);
    ExampleText1();
    ExampleText2();
  }

  lemma ExampleThirdReplace()
    ensures Replace("4 times 3 makes $3", "$3", "12") == "4 times 3 makes 12"
  {
    ExamplePieces3();
    ReplaceStep(EXAMPLE_2, "$3", "12", EXAMPLE_3);
    ExampleText2();
    ExampleText3();
  }

  /** Three arguments: "$1", "$2", "$3" replaced in turn. */
  lemma SubstitutedThree(message: string, a: string, b: string, c: string)
    ensures Substituted(message, [a, b, c]) == Replace(Replace(Replace(message, "$1", a), "$2", b), "$3", c)
  {
    var args := [a, b, c];
    assert Placeholder(1) == "$1" && Placeholder(2) == "$2" && Placeholder(3) == "$3";
    assert args[..2] == [a, b] && [a, b][..1] == [a] && [a][..0] == [];
    assert Substituted(message, [a]) == Replace(message, "$1", a);
    assert Substituted(message, [a, b]) == Replace(Substituted(message, [a]), "$2", b);
    assert Substituted(message, args) == Replace(Substituted(message, [a, b]), "$3", c);
  }

  /** LoggerTest: "$1 times $2 makes $3" with 4, 3, 12 gives "4 times 3 makes 12". */
  lemma LoggerTestExample()
    ensures Substituted("$1 times $2 makes $3", ["4", "3", "12"]) == "4 times 3 makes 12"
  {
    SubstitutedThree("$1 times $2 makes $3", "4", "3", "12");
    ExampleFirstReplace();
    ExampleSecondReplace();
    ExampleThirdReplace();
  }

  /**
   * With ten arguments "$10" is already consumed by "$1": it becomes the
   * first argument followed by "0", never the tenth argument.
   */
  lemma TenthPlaceholderShadowed(args: seq<string>)
    requires |args| == 10 && '$' !in args[0]
    ensures Substituted("$10", args) == args[0] + "0"
  {
    assert Placeholder(1) == "$1";
    assert args[..1][..0] == [];
    assert "$10" == "$1" + "0";
    ReplaceAtFront("0", "$1", args[0]);
    assert Substituted("$10", args[..1]) == args[0] + "0";
    SubstitutedFrozen("$10", args, 1);
  }
}
