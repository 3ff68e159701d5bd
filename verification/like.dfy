/** Postgres `LIKE` as the store's search uses it: the pattern `%text%` is
    built from the client's text as it is, so `_` in it matches any one
    character, `%` any run of characters, and `\` makes the next character
    literal. */
module Like {
  import opened Text

  /** One element of a parsed pattern. */
  datatype Token = One | Any | Lit(c: char)

  /** The characters with a meaning in a pattern. */
  predicate IsMeta(c: char) {
    c == '%' || c == '_' || c == '\\'
  }

  /** Text in which no character has a meaning in a pattern. */
  predicate Plain(s: string) {
    forall i :: 0 <= i < |s| ==> !IsMeta(s[i])
  }

  /** The tokens of a pattern. A `\` at the very end stands for itself here;
      Postgres rejects such a pattern, but one of the form `%text%` always
      ends in `%`, which such a `\` escapes. */
  function Tokens(p: string): (r: seq<Token>)
    decreases |p|
  {
    if |p| == 0 then []
    else if p[0] == '\\' && |p| >= 2 then [Lit(p[1])] + Tokens(p[2..])
    else if p[0] == '%' then [Any] + Tokens(p[1..])
    else if p[0] == '_' then [One] + Tokens(p[1..])
    else [Lit(p[0])] + Tokens(p[1..])
  }

  /** Whether the whole of `t` matches the tokens. */
  predicate Matches(ts: seq<Token>, t: string)
    decreases |ts|, |t|
  {
    if |ts| == 0 then |t| == 0
    else match ts[0]
      case Any => Matches(ts[1..], t) || (|t| > 0 && Matches(ts, t[1..]))
      case One => |t| > 0 && Matches(ts[1..], t[1..])
      case Lit(c) => |t| > 0 && t[0] == c && Matches(ts[1..], t[1..])
  }

  /** `text LIKE '%' || s || '%'` with `s` as the client sent it. */
  predicate LikeContains(text: string, s: string) {
    Matches(Tokens("%" + s + "%"), text)
  }

  /** `s` with a `\` put before every character that has a meaning in a pattern. */
  function Escape(s: string): (r: string)
    ensures |r| >= |s|
    ensures Plain(s) ==> r == s
  {
    if |s| == 0 then []
    else (if IsMeta(s[0]) then ['\\', s[0]] else [s[0]]) + Escape(s[1..])
  }

  /** The search with the client's text escaped: `text LIKE '%' || escape(s) || '%'`. */
  predicate EscapedLikeContains(text: string, s: string) {
    Matches(Tokens("%" + Escape(s) + "%"), text)
  }

  /** Tokens that each match one given character. */
  function Lits(s: string): (r: seq<Token>)
    ensures |r| == |s|
  {
    if |s| == 0 then [] else [Lit(s[0])] + Lits(s[1..])
  }

  /** A character with no meaning in a pattern is a literal. */
  lemma PlainCharToken(c: char, tail: string)
    requires !IsMeta(c)
    ensures Tokens([c] + tail) == [Lit(c)] + Tokens(tail)
  {
    assert ([c] + tail)[1..] == tail;
  }

  /** A `\` makes the character after it a literal. */
  lemma EscapedCharToken(c: char, tail: string)
    ensures Tokens(['\\', c] + tail) == [Lit(c)] + Tokens(tail)
  {
    assert (['\\', c] + tail)[2..] == tail;
  }

  /** An escaped text parses into one literal per character, whatever follows it. */
  lemma {:induction false} EscapedTokens(s: string, rest: string)
    ensures Tokens(Escape(s) + rest) == Lits(s) + Tokens(rest)
  {
    if |s| > 0 {
      var head := if IsMeta(s[0]) then ['\\', s[0]] else [s[0]];
      var tail := Escape(s[1..]) + rest;
      assert Escape(s) + rest == head + tail;
      assert Tokens(head + tail) == [Lit(s[0])] + Tokens(tail) by {
        if IsMeta(s[0]) {
          EscapedCharToken(s[0], tail);
        } else {
          PlainCharToken(s[0], tail);
        }
      }
      EscapedTokens(s[1..], rest);
      assert Lits(s) + Tokens(rest) == [Lit(s[0])] + (Lits(s[1..]) + Tokens(rest));
    } else {
      assert Escape(s) + rest == rest;
      assert Lits(s) + Tokens(rest) == Tokens(rest);
    }
  }

  /** A leading `%` matches when the rest matches some suffix. */
  lemma {:induction false} AnyThen(ts: seq<Token>, t: string)
    ensures Matches([Any] + ts, t) <==> exists k :: 0 <= k <= |t| && Matches(ts, t[k..])
    decreases |t|
  {
    assert ([Any] + ts)[1..] == ts;
    assert t[0..] == t;
    if |t| > 0 {
      AnyThen(ts, t[1..]);
      if k :| 0 <= k <= |t| && Matches(ts, t[k..]) {
        if k > 0 {
          assert t[1..][k - 1..] == t[k..];
        }
      }
      if k :| 0 <= k <= |t[1..]| && Matches(ts, t[1..][k..]) {
        assert t[1..][k..] == t[k + 1..];
      }
    }
  }

  /** A lone `%` matches every text. */
  lemma {:induction false} AnyMatchesAll(t: string)
    ensures Matches([Any], t)
    decreases |t|
  {
    assert [Any][1..] == [];
    if |t| > 0 {
      AnyMatchesAll(t[1..]);
    }
  }

  /** Literals followed by `%` match exactly the texts that start with them. */
  lemma {:induction false} LitsThenAny(s: string, t: string)
    ensures Matches(Lits(s) + [Any], t) <==> StartsWith(t, s)
  {
    if |s| == 0 {
      assert Lits(s) + [Any] == [Any];
      AnyMatchesAll(t);
    } else {
      assert (Lits(s) + [Any])[0] == Lit(s[0]);
      assert (Lits(s) + [Any])[1..] == Lits(s[1..]) + [Any];
      if |t| > 0 {
        LitsThenAny(s[1..], t[1..]);
        if StartsWith(t, s) {
          assert t[1..][..|s| - 1] == t[..|s|][1..];
        }
        if t[0] == s[0] && StartsWith(t[1..], s[1..]) {
          assert t[..|s|] == [t[0]] + t[1..][..|s| - 1];
        }
      }
    }
  }

  /** A pattern `%`, literals, `%` finds exactly the texts that contain the literals. */
  lemma SurroundedLits(s: string, t: string)
    ensures Matches([Any] + (Lits(s) + [Any]), t) <==> Contains(t, s)
  {
    AnyThen(Lits(s) + [Any], t);
    ContainsIff(t, s);
    if Contains(t, s) {
      var i :| OccursAt(t, s, i);
      assert t[i..][..|s|] == t[i..i + |s|];
      LitsThenAny(s, t[i..]);
    }
    if k :| 0 <= k <= |t| && Matches(Lits(s) + [Any], t[k..]) {
      LitsThenAny(s, t[k..]);
      assert t[k..][..|s|] == t[k..k + |s|];
      assert OccursAt(t, s, k);
    }
  }

  /** With the client's text escaped, the search is exactly a substring test. */
  lemma EscapedLikeIsContains(text: string, s: string)
    ensures EscapedLikeContains(text, s) <==> Contains(text, s)
  {
    var p := "%" + Escape(s) + "%";
    assert p[0] == '%' && p[1..] == Escape(s) + "%";
    EscapedTokens(s, "%");
    assert Tokens("%") == [Any];
    assert Tokens(p) == [Any] + (Lits(s) + [Any]);
    SurroundedLits(s, text);
  }

  /** For plain text, the unescaped search is a substring test too. */
  lemma PlainLikeIsContains(text: string, s: string)
    requires Plain(s)
    ensures LikeContains(text, s) <==> Contains(text, s)
  {
    EscapedLikeIsContains(text, s);
  }

  /** The unescaped search for `_` matches every non-empty text, although
      almost none of them contain an underscore. */
  lemma UnderscoreMatchesAnyChar(text: string)
    requires |text| > 0
    ensures LikeContains(text, "_")
    ensures '_' !in text ==> !Contains(text, "_")
  {
    var p := "%" + "_" + "%";
    assert Tokens(p) == [Any, One, Any] by {
      assert p == ['%', '_', '%'];
      assert p[1..] == ['_', '%'];
      assert p[1..][1..] == ['%'];
      assert p[1..][1..][1..] == [];
      assert Tokens(['%']) == [Any];
      assert Tokens(['_', '%']) == [One, Any];
    }
    assert [Any, One, Any] == [Any] + [One, Any];
    AnyThen([One, Any], text);
    assert text[0..] == text;
    assert [One, Any][1..] == [Any];
    AnyMatchesAll(text[1..]);
    assert Matches([One, Any], text[0..]);
    if '_' !in text {
      MissingCharNoMatch(text, "_", 0);
    }
  }
}
