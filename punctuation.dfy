/**
  The voice-punctuation rewriter of the popup (`processText`).

  The source builds one regular expression from the keys of a five-entry
  table, joined by `|` in the table's order, and replaces globally with a
  callback that looks the matched text up in the same table.  A global
  replace scans left to right; at each position the alternatives are tried
  in order, a match is replaced and scanning resumes right after it, and a
  position where nothing matches is copied unchanged.  `ProcessText` is that
  scan, written as a recursion over the remaining text.
 */
module Punctuation {
  import opened Wrappers

  /** The phrase tokens, each with its bounding spaces, in alternation order. */
  const Keys: seq<string> :=
    [" punto ", " coma ", " signo de interrogación ", " signo de exclamación ", " y "]

  /** What each token of `Keys` is replaced by (same index). */
  const Values: seq<string> := [". ", ", ", "? ", "! ", " y "]

  /** Every token starts with a space, and no replacement is longer than its token. */
  lemma TableFacts(k: nat)
    requires k < |Keys|
    ensures |Values| == |Keys| == 5
    ensures |Keys[k]| >= 3 && Keys[k][0] == ' '
    ensures |Values[k]| <= |Keys[k]|
  {
    assert k == 0 || k == 1 || k == 2 || k == 3 || k == 4;
  }

  /** The alternative the regular expression matches at the start of `s`, tried in order. */
  function KeyAt(s: string): (k: Option<nat>)
    ensures k.Some? ==> k.value < |Keys| && Keys[k.value] <= s
  {
    if Keys[0] <= s then Some(0)
    else if Keys[1] <= s then Some(1)
    else if Keys[2] <= s then Some(2)
    else if Keys[3] <= s then Some(3)
    else if Keys[4] <= s then Some(4)
    else None
  }

  /**
    The match at a position is the first token in alternation order that
    starts there, and there is none exactly when no token starts there.
   */
  lemma KeyAtFirst(s: string)
    ensures KeyAt(s).Some? ==> forall i :: 0 <= i < KeyAt(s).value ==> !(Keys[i] <= s)
    ensures KeyAt(s).None? <==> forall i :: 0 <= i < |Keys| ==> !(Keys[i] <= s)
  {
    if KeyAt(s).None? {
      forall i | 0 <= i < |Keys| ensures !(Keys[i] <= s) {
        assert i == 0 || i == 1 || i == 2 || i == 3 || i == 4;
      }
    }
  }

  /** `processText`: one global, left-to-right pass replacing every token by its value. */
  function ProcessText(s: string): (r: string)
    decreases |s|
    ensures |r| <= |s|
  {
    if s == [] then []
    else match KeyAt(s)
      case Some(k) =>
        TableFacts(k);
        Values[k] + ProcessText(s[|Keys[k]|..])
      case None => [s[0]] + ProcessText(s[1..])
  }

  /** No token starts anywhere in `s`. */
  ghost predicate NoKeyOccurs(s: string) {
    forall i, k :: 0 <= i <= |s| && 0 <= k < |Keys| ==> !(Keys[k] <= s[i..])
  }

  /** Text containing none of the tokens is returned unchanged. */
  lemma {:induction false} ProcessTextWithoutKeys(s: string)
    requires NoKeyOccurs(s)
    ensures ProcessText(s) == s
  {
    if s != [] {
      assert forall k :: 0 <= k < |Keys| ==> !(Keys[k] <= s) by {
        assert s[0..] == s;
      }
      KeyAtFirst(s);
      NoKeyOccursInTail(s);
      ProcessTextWithoutKeys(s[1..]);
      assert [s[0]] + s[1..] == s;
    }
  }

  lemma NoKeyOccursInTail(s: string)
    requires s != [] && NoKeyOccurs(s)
    ensures NoKeyOccurs(s[1..])
  {
    forall i, k | 0 <= i <= |s[1..]| && 0 <= k < |Keys|
      ensures !(Keys[k] <= s[1..][i..])
    {
      assert s[1..][i..] == s[i + 1..];
    }
  }

  /** No token is a prefix of another one (checked entry by entry). */
  lemma KeysPrefixFree(a: nat, b: nat)
    requires a < |Keys| && b < |Keys|
    requires Keys[a] <= Keys[b]
    ensures a == b
  {
    assert Keys[0][1] == 'p' && Keys[1][1] == 'c' && Keys[2][1] == 's';
    assert Keys[3][1] == 's' && Keys[4][1] == 'y';
    assert Keys[2][10] == 'i' && Keys[3][10] == 'e';
    assert Keys[a][1] == Keys[b][1];
    assert a == 0 || a == 1 || a == 2 || a == 3 || a == 4;
    assert b == 0 || b == 1 || b == 2 || b == 3 || b == 4;
    if a == 2 || a == 3 {
      assert Keys[a][10] == Keys[b][10];
    }
  }

  /** At most one token starts at any position. */
  lemma OneKeyPerPosition(s: string, a: nat, b: nat)
    requires a < |Keys| && b < |Keys|
    requires Keys[a] <= s && Keys[b] <= s
    ensures a == b
  {
    if |Keys[a]| <= |Keys[b]| {
      assert Keys[a] == s[..|Keys[a]|] == Keys[b][..|Keys[a]|];
      KeysPrefixFree(a, b);
    } else {
      assert Keys[b] == s[..|Keys[b]|] == Keys[a][..|Keys[b]|];
      KeysPrefixFree(b, a);
    }
  }

  /**
    A matched token is consumed with both of its spaces: scanning resumes
    right after the trailing space, so a following token that would need
    that space as its leading one is not matched there.
   */
  lemma PhraseConsumed(k: nat, rest: string)
    requires k < |Keys|
    ensures ProcessText(Keys[k] + rest) == Values[k] + ProcessText(rest)
  {
    var s := Keys[k] + rest;
    assert Keys[k] <= s;
    var m := KeyAt(s);
    assert m.Some? && m.value == k by {
      if m.Some? {
        OneKeyPerPosition(s, m.value, k);
      }
    }
    assert s[|Keys[k]|..] == rest;
  }

  /** A character other than a space never starts a token, so it is copied. */
  lemma CopiesNonSpace(c: char, rest: string)
    requires c != ' '
    ensures ProcessText([c] + rest) == [c] + ProcessText(rest)
  {
    var s := [c] + rest;
    forall i | 0 <= i < |Keys| ensures !(Keys[i] <= s) {
      TableFacts(i);
    }
    assert s[1..] == rest;
  }

  /** A space followed by a letter that begins no token is copied. */
  lemma CopiesSpaceBefore(c: char, rest: string)
    requires c != 'p' && c != 'c' && c != 's' && c != 'y'
    ensures ProcessText([' ', c] + rest) == [' '] + ProcessText([c] + rest)
  {
    var s := [' ', c] + rest;
    forall i | 0 <= i < |Keys| ensures !(Keys[i] <= s) {
      assert i == 0 || i == 1 || i == 2 || i == 3 || i == 4;
      assert s[1] == c;
    }
    assert s[1..] == [c] + rest;
  }

  /** A run of characters none of which is a space. */
  predicate Word(w: string) {
    w == [] || (w[0] != ' ' && Word(w[1..]))
  }

  /** Copying a run of characters none of which is a space. */
  lemma {:induction false} CopiesWord(w: string, rest: string)
    requires Word(w)
    ensures ProcessText(w + rest) == w + ProcessText(rest)
  {
    if w == [] {
      assert w + rest == rest;
    } else {
      var t := w[1..] + rest;
      calc {
        ProcessText(w + rest);
        { assert w + rest == [w[0]] + t; }
        ProcessText([w[0]] + t);
        { CopiesNonSpace(w[0], t); }
        [w[0]] + ProcessText(t);
        { CopiesWord(w[1..], rest); }
        [w[0]] + (w[1..] + ProcessText(rest));
        w + ProcessText(rest);
      }
    }
  }

  /** Text without any space is copied unchanged. */
  lemma {:induction false} NoSpaceUnchanged(w: string)
    requires Word(w)
    ensures ProcessText(w) == w
  {
    if w != [] {
      calc {
        ProcessText(w);
        { assert w == [w[0]] + w[1..]; }
        ProcessText([w[0]] + w[1..]);
        { CopiesNonSpace(w[0], w[1..]); }
        [w[0]] + ProcessText(w[1..]);
        { NoSpaceUnchanged(w[1..]); }
        [w[0]] + w[1..];
        w;
      }
    }
  }

  /** A word, a token, then a word that follows the token's trailing space. */
  lemma WordTokenWord(u: string, k: nat, v: string, rest: string)
    requires k < |Keys|
    requires Word(u)
    requires Word(v)
    ensures ProcessText(u + Keys[k] + v + rest) == u + Values[k] + v + ProcessText(rest)
  {
    calc {
      ProcessText(u + Keys[k] + v + rest);
      { assert u + Keys[k] + v + rest == u + (Keys[k] + (v + rest)); }
      ProcessText(u + (Keys[k] + (v + rest)));
      { CopiesWord(u, Keys[k] + (v + rest)); }
      u + ProcessText(Keys[k] + (v + rest));
      { PhraseConsumed(k, v + rest); }
      u + (Values[k] + ProcessText(v + rest));
      { CopiesWord(v, rest); }
      u + (Values[k] + (v + ProcessText(rest)));
      { assert u + (Values[k] + (v + ProcessText(rest))) == u + Values[k] + v + ProcessText(rest); }
      u + Values[k] + v + ProcessText(rest);
    }
  }

  /** Two tokens sharing one space: only the first is rewritten. */
  lemma SharedSpaceExample()
    ensures ProcessText("a punto coma b") == "a. coma b"
  {
    calc {
      ProcessText("a punto coma b");
      { assert "a punto coma b" == "a" + Keys[0] + "coma" + [' ', 'b']; }
      ProcessText("a" + Keys[0] + "coma" + [' ', 'b']);
      { WordTokenWord("a", 0, "coma", [' ', 'b']); SpaceB(); }
      "a" + Values[0] + "coma" + [' ', 'b'];
      "a. coma b";
    }
  }

  /** The tail of the previous example: a space and a letter are copied. */
  lemma SpaceB()
    ensures ProcessText([' ', 'b']) == [' ', 'b']
  {
    calc {
      ProcessText([' ', 'b']);
      { assert [' ', 'b'] == [' ', 'b'] + []; CopiesSpaceBefore('b', []); }
      [' '] + ProcessText(['b']);
      { assert ['b'] == ['b'] + []; NoSpaceUnchanged(['b']); }
      [' '] + ['b'];
    }
  }

  /** The tail of the next example: the leading space before "estas" is copied. */
  lemma SpaceEstasComaBien()
    ensures ProcessText(" estas coma bien") == " estas, bien"
  {
    calc {
      ProcessText(" estas coma bien");
      { assert " estas coma bien" == [' ', 'e'] + ("stas" + Keys[1] + "bien");
        CopiesSpaceBefore('e', "stas" + Keys[1] + "bien"); }
      [' '] + ProcessText(['e'] + ("stas" + Keys[1] + "bien"));
      { EstasComaBien(); }
      [' '] + "estas, bien";
      " estas, bien";
    }
  }

  /** The words around the second token of the next example. */
  lemma EstasComaBien()
    ensures ProcessText(['e'] + ("stas" + Keys[1] + "bien")) == "estas, bien"
  {
    calc {
      ProcessText(['e'] + ("stas" + Keys[1] + "bien"));
      { assert ['e'] + ("stas" + Keys[1] + "bien") == "estas" + Keys[1] + "bien" + []; }
      ProcessText("estas" + Keys[1] + "bien" + []);
      { WordTokenWord("estas", 1, "bien", []); }
      "estas" + Values[1] + "bien" + ProcessText([]);
      "estas, bien";
    }
  }

  /** Two tokens separated by words: both are rewritten, and nothing else changes. */
  lemma TwoTokensExample()
    ensures ProcessText("hola punto como estas coma bien") == "hola. como estas, bien"
  {
    calc {
      ProcessText("hola punto como estas coma bien");
      { assert "hola punto como estas coma bien" == "hola" + Keys[0] + "como" + " estas coma bien"; }
      ProcessText("hola" + Keys[0] + "como" + " estas coma bien");
      { HolaPuntoComo(); }
      "hola" + Values[0] + "como" + " estas, bien";
      "hola. como estas, bien";
    }
  }

  /** The head of the previous example, with its tail already rewritten. */
  lemma HolaPuntoComo()
    ensures ProcessText("hola" + Keys[0] + "como" + " estas coma bien") ==
      "hola" + Values[0] + "como" + " estas, bien"
  {
    WordTokenWord("hola", 0, "como", " estas coma bien");
    SpaceEstasComaBien();
  }

  /**
    A token at the very end of the text, without its trailing space, is not
    a token: the handler trims each transcript before rewriting it, so a
    final "punto" is kept as a word.
   */
  lemma TrailingTokenKept()
    ensures ProcessText("hola punto") == "hola punto"
  {
    calc {
      ProcessText("hola punto");
      { assert "hola punto" == "hola" + " punto"; CopiesWord("hola", " punto"); }
      "hola" + ProcessText(" punto");
      { SpacePunto(); }
      "hola" + " punto";
      "hola punto";
    }
  }

  /** The tail of the previous example: " punto" is shorter than the token " punto ". */
  lemma SpacePunto()
    ensures ProcessText(" punto") == " punto"
  {
    var s := " punto";
    forall i | 0 <= i < |Keys| ensures !(Keys[i] <= s) {
      assert i == 0 || i == 1 || i == 2 || i == 3 || i == 4;
      assert |Keys[0]| == 7;
      assert Keys[i][1] != 'p' || i == 0;
    }
    KeyAtFirst(s);
    assert s[1..] == "punto";
    NoSpaceUnchanged("punto");
  }

  /*
    An independent reading of the rewrite: the input is cut, left to right,
    into pieces that are either one copied character or one whole token, and
    a character is copied only where no token starts.
   */

  /** One piece of the input as the scan reads it. */
  datatype Piece = Copied(c: char) | Token(k: nat)

  /** The input text the pieces cover, in order. */
  function Covered(ps: seq<Piece>): string {
    if ps == [] then []
    else match ps[0]
      case Copied(c) => [c] + Covered(ps[1..])
      case Token(k) => (if k < |Keys| then Keys[k] else []) + Covered(ps[1..])
  }

  /** What the pieces become: a copied character stays, a token becomes its value. */
  function Rendered(ps: seq<Piece>): string {
    if ps == [] then []
    else match ps[0]
      case Copied(c) => [c] + Rendered(ps[1..])
      case Token(k) => (if k < |Keys| then Values[k] else []) + Rendered(ps[1..])
  }

  /** Every token piece names a table entry and no token starts at a copied character. */
  ghost predicate Leftmost(ps: seq<Piece>) {
    ps == [] ||
    ((match ps[0]
        case Copied(_) => forall k :: 0 <= k < |Keys| ==> !(Keys[k] <= Covered(ps))
        case Token(k) => k < |Keys|)
     && Leftmost(ps[1..]))
  }

  /** Rewriting any leftmost cutting of a text gives exactly `ProcessText` of that text. */
  lemma {:induction false} LeftmostRewrite(ps: seq<Piece>)
    requires Leftmost(ps)
    ensures ProcessText(Covered(ps)) == Rendered(ps)
  {
    if ps != [] {
      var rest := Covered(ps[1..]);
      LeftmostRewrite(ps[1..]);
      match ps[0]
      case Copied(c) =>
        var s := [c] + rest;
        assert Covered(ps) == s;
        assert KeyAt(s).None?;
        assert s[1..] == rest;
      case Token(k) =>
        PhraseConsumed(k, rest);
    }
  }

  /** A text has only one leftmost cutting. */
  lemma {:induction false} LeftmostUnique(ps: seq<Piece>, qs: seq<Piece>)
    requires Leftmost(ps) && Leftmost(qs)
    requires Covered(ps) == Covered(qs)
    ensures ps == qs
  {
    if ps != [] && qs != [] {
      var s := Covered(ps);
      match (ps[0], qs[0])
      case (Copied(c), Copied(d)) =>
        assert c == s[0] == d;
        assert Covered(ps[1..]) == s[1..] == Covered(qs[1..]);
        LeftmostUnique(ps[1..], qs[1..]);
      case (Copied(_), Token(j)) =>
        assert false;
      case (Token(k), Copied(_)) =>
        assert false;
      case (Token(k), Token(j)) =>
        assert Keys[k] <= s && Keys[j] <= s;
        OneKeyPerPosition(s, k, j);
        assert Covered(ps[1..]) == s[|Keys[k]|..] == Covered(qs[1..]);
        LeftmostUnique(ps[1..], qs[1..]);
    } else {
      CoversSomething(ps);
      CoversSomething(qs);
    }
  }

  /** A non-empty leftmost cutting covers at least one character. */
  lemma CoversSomething(ps: seq<Piece>)
    requires Leftmost(ps)
    ensures ps != [] <==> Covered(ps) != []
  {
    if ps != [] && ps[0].Token? {
      TableFacts(ps[0].k);
    }
  }

  /** The leftmost cutting the scan performs. */
  function Cutting(s: string): (ps: seq<Piece>)
    decreases |s|
    ensures Covered(ps) == s && Leftmost(ps)
  {
    if s == [] then []
    else match KeyAt(s)
      case Some(k) =>
        TableFacts(k);
        assert Keys[k] + s[|Keys[k]|..] == s;
        var ps := [Token(k)] + Cutting(s[|Keys[k]|..]);
        assert ps[1..] == Cutting(s[|Keys[k]|..]);
        ps
      case None =>
        KeyAtFirst(s);
        assert [s[0]] + s[1..] == s;
        var ps := [Copied(s[0])] + Cutting(s[1..]);
        assert ps[1..] == Cutting(s[1..]);
        ps
  }
}
