/** PostgreSQL's `ILIKE` as the order-id filter uses it: the pattern `%x%` built from the
    user's text, matched case-insensitively. In a LIKE pattern `%` stands for any run of
    characters, `_` for any one character, and backslash (the default escape) makes the next
    character literal. Case folding is ASCII only. */
module Like {
  import opened Wrappers

  function Lower(c: char): char
  {
    if 'A' <= c <= 'Z' then (c as int + 32) as char else c
  }

  function LowerText(s: string): (r: string)
    ensures |r| == |s| && forall i :: 0 <= i < |s| ==> r[i] == Lower(s[i])
  {
    seq(|s|, i requires 0 <= i < |s| => Lower(s[i]))
  }

  datatype Token = AnyRun | AnyChar | Literal(c: char)

  /** The tokens of a LIKE pattern; `None` when the pattern ends in an unescaped escape
      character, which PostgreSQL rejects. */
  function Tokens(pattern: string): (r: Option<seq<Token>>)
    decreases |pattern|
  {
    if |pattern| == 0 then Some([])
    else if pattern[0] == '\\' then
      if |pattern| == 1 then None
      else
        var rest :- Tokens(pattern[2..]);
        Some([Literal(pattern[1])] + rest)
    else
      var rest :- Tokens(pattern[1..]);
      var head := if pattern[0] == '%' then AnyRun else if pattern[0] == '_' then AnyChar else Literal(pattern[0]);
      Some([head] + rest)
  }

  /** Whether the whole of `text` matches the tokens, letters compared without case. */
  predicate Matches(text: string, tokens: seq<Token>)
    decreases |tokens|, |text|
  {
    if |tokens| == 0 then |text| == 0
    else match tokens[0]
      case AnyRun => Matches(text, tokens[1..]) || (|text| > 0 && Matches(text[1..], tokens))
      case AnyChar => |text| > 0 && Matches(text[1..], tokens[1..])
      case Literal(c) => |text| > 0 && Lower(text[0]) == Lower(c) && Matches(text[1..], tokens[1..])
  }

  /** `text ILIKE pattern`; an ill-formed pattern is an error. */
  function ILike(text: string, pattern: string): Option<bool>
  {
    var tokens :- Tokens(pattern);
    Some(Matches(text, tokens))
  }

  /** The pattern `%x%` of the order-id filter. */
  function ContainsPattern(x: string): string
  {
    "%" + x + "%"
  }

  /** Text without LIKE's special characters. */
  predicate Plain(x: string)
  {
    forall i :: 0 <= i < |x| ==> x[i] != '%' && x[i] != '_' && x[i] != '\\'
  }

  /** `x` occurs in `text` at position `i` when case is ignored. */
  predicate OccursAt(text: string, x: string, i: int)
  {
    0 <= i && i + |x| <= |text| && LowerText(text[i..i + |x|]) == LowerText(x)
  }

  /** `x` occurs in `text` when case is ignored. */
  predicate ContainsIgnoringCase(text: string, x: string)
  {
    exists i :: 0 <= i <= |text| && OccursAt(text, x, i)
  }

  function Literals(x: string): (r: seq<Token>)
    ensures |r| == |x| && forall i :: 0 <= i < |x| ==> r[i] == Literal(x[i])
  {
    seq(|x|, i requires 0 <= i < |x| => Literal(x[i]))
  }

  lemma {:induction false} TokensOfPlain(x: string, tail: string)
    requires Plain(x)
    ensures Tokens(x + tail) == (var rest :- Tokens(tail); Some(Literals(x) + rest))
    decreases |x|
  {
    if |x| > 0 {
      assert (x + tail)[1..] == x[1..] + tail;
      assert (x + tail)[0] == x[0];
      assert x[0] != '%' && x[0] != '_' && x[0] != '\\';
      forall i | 0 <= i < |x| - 1
        ensures x[1..][i] != '%' && x[1..][i] != '_' && x[1..][i] != '\\'
      {
        assert x[1..][i] == x[i + 1];
      }
      TokensOfPlain(x[1..], tail);
      if Tokens(tail).Some? {
        var rest := Tokens(tail).value;
        assert Tokens(x[1..] + tail) == Some(Literals(x[1..]) + rest);
        assert Literals(x) == [Literal(x[0])] + Literals(x[1..]);
        assert [Literal(x[0])] + (Literals(x[1..]) + rest) == Literals(x) + rest;
      }
    } else {
      assert x + tail == tail;
      assert Literals(x) == [];
      if Tokens(tail).Some? {
        assert Literals(x) + Tokens(tail).value == Tokens(tail).value;
      }
    }
  }

  /** The pattern `%x%` is always well formed: it never ends in an escape character. */
  lemma {:induction false} ContainsPatternWellFormed(x: string)
    ensures Tokens(ContainsPattern(x)).Some?
  {
    WellFormedEndingInRun(ContainsPattern(x));
  }

  lemma {:induction false} WellFormedEndingInRun(p: string)
    requires |p| > 0 && p[|p| - 1] == '%'
    ensures Tokens(p).Some?
    decreases |p|
  {
    if p[0] == '\\' {
      if |p| > 2 {
        WellFormedEndingInRun(p[2..]);
      }
    } else if |p| > 1 {
      WellFormedEndingInRun(p[1..]);
    }
  }

  /** A leading `%` matches when some suffix of the text matches the rest. */
  lemma {:induction false} AnyRunMatches(text: string, tokens: seq<Token>)
    ensures Matches(text, [AnyRun] + tokens) <==> exists i :: 0 <= i <= |text| && Matches(text[i..], tokens)
    decreases |text|
  {
    var pat := [AnyRun] + tokens;
    assert pat[1..] == tokens;
    if |text| == 0 {
      assert text[0..] == text;
    } else {
      AnyRunMatches(text[1..], tokens);
      assert text[0..] == text;
      if exists i :: 0 <= i <= |text| && Matches(text[i..], tokens) {
        var i :| 0 <= i <= |text| && Matches(text[i..], tokens);
        if i > 0 {
          assert text[1..][i - 1..] == text[i..];
        }
      }
      if Matches(text[1..], pat) {
        var i :| 0 <= i <= |text[1..]| && Matches(text[1..][i..], tokens);
        assert text[1..][i..] == text[i + 1..];
      }
    }
  }

  /** A trailing `%` alone matches any text. */
  lemma {:induction false} AnyRunMatchesAll(text: string)
    ensures Matches(text, [AnyRun])
    decreases |text|
  {
    assert [AnyRun][1..] == [];
    if |text| > 0 {
      AnyRunMatchesAll(text[1..]);
    }
  }

  /** Comparing a prefix of `text` with `x` up to case is comparing their first characters
      and then the rest. */
  lemma LowerPrefixStep(text: string, x: string)
    requires 0 < |x| <= |text|
    ensures text[1..][|x| - 1..] == text[|x|..]
    ensures text[1..][..|x| - 1] == text[1..|x|]
    ensures LowerText(text[..|x|]) == LowerText(x) <==>
            Lower(text[0]) == Lower(x[0]) && LowerText(text[1..|x|]) == LowerText(x[1..])
  {
    var a := LowerText(text[..|x|]);
    var b := LowerText(x);
    if Lower(text[0]) == Lower(x[0]) && LowerText(text[1..|x|]) == LowerText(x[1..]) {
      forall i | 0 <= i < |x|
        ensures a[i] == b[i]
      {
        if i > 0 {
          assert LowerText(text[1..|x|])[i - 1] == LowerText(x[1..])[i - 1];
        }
      }
    }
    if a == b {
      forall i | 0 <= i < |x| - 1
        ensures LowerText(text[1..|x|])[i] == LowerText(x[1..])[i]
      {
        assert a[i + 1] == b[i + 1];
      }
    }
  }

  /** Literal tokens match a prefix equal to them up to case. */
  lemma {:induction false} LiteralsMatch(text: string, x: string, tokens: seq<Token>)
    ensures Matches(text, Literals(x) + tokens) <==>
            |x| <= |text| && LowerText(text[..|x|]) == LowerText(x) && Matches(text[|x|..], tokens)
    decreases |x|
  {
    if |x| == 0 {
      assert Literals(x) + tokens == tokens;
      assert text[0..] == text;
    } else {
      var pat := Literals(x) + tokens;
      assert pat[0] == Literal(x[0]);
      assert pat[1..] == Literals(x[1..]) + tokens;
      if |text| > 0 {
        LiteralsMatch(text[1..], x[1..], tokens);
        if |x| <= |text| {
          LowerPrefixStep(text, x);
        }
      }
    }
  }

  /** For text without special characters, the order-id filter is a case-insensitive
      substring test. */
  lemma ILikeIsSubstring(text: string, x: string)
    requires Plain(x)
    ensures ILike(text, ContainsPattern(x)) == Some(ContainsIgnoringCase(text, x))
  {
    TokensOfPlain(x, "%");
    assert ContainsPattern(x) == "%" + (x + "%");
    assert "%"[1..] == [] && [AnyRun] + [] == [AnyRun];
    assert Tokens("%") == Some([AnyRun]);
    var tokens := [AnyRun] + (Literals(x) + [AnyRun]);
    assert Tokens(ContainsPattern(x)) == Some(tokens);
    AnyRunMatches(text, Literals(x) + [AnyRun]);
    forall i | 0 <= i <= |text|
      ensures Matches(text[i..], Literals(x) + [AnyRun]) <==> OccursAt(text, x, i)
    {
      LiteralsMatch(text[i..], x, [AnyRun]);
      if |x| <= |text[i..]| {
        AnyRunMatchesAll(text[i..][|x|..]);
        assert text[i..][..|x|] == text[i..i + |x|];
      }
    }
  }

  /** Special characters in the user's text are not escaped: `_` matches any character, so
      "%_%" matches "AB" although "AB" does not contain "_". */
  lemma UnderscoreIsWildcard()
    ensures ILike("AB", ContainsPattern("_")) == Some(true)
    ensures !ContainsIgnoringCase("AB", "_")
  {
    var tokens := [AnyRun, AnyChar, AnyRun];
    assert "%"[1..] == [] && "_%"[1..] == "%" && "%_%"[1..] == "_%";
    assert [AnyRun] + [] == [AnyRun];
    assert Tokens("%") == Some([AnyRun]);
    assert [AnyChar] + [AnyRun] == [AnyChar, AnyRun];
    assert Tokens("_%") == Some([AnyChar, AnyRun]);
    assert [AnyRun] + [AnyChar, AnyRun] == tokens;
    assert ContainsPattern("_") == "%_%";
    assert Tokens(ContainsPattern("_")) == Some(tokens);
    assert "AB"[1..] == "B" && "B"[1..] == [];
    assert tokens[1..] == [AnyChar, AnyRun] && tokens[1..][1..] == [AnyRun];
    AnyRunMatchesAll("B");
    assert Matches("AB", [AnyChar, AnyRun]);
    forall i | 0 <= i <= 1
      ensures !OccursAt("AB", "_", i)
    {
      assert LowerText("_")[0] == '_';
      assert LowerText("AB"[i..i + 1])[0] == Lower("AB"[i]);
    }
  }
}
