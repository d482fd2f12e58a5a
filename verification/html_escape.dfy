/** The catalog's `escape`: four chained `str.replace` calls that turn `&`,
    `<`, `>` and `"` into HTML character references, `&` first. The chain is
    shown equal to a character-by-character substitution, which in turn is
    undone by a reference decoder. */
module HtmlEscape {
  import opened Text

  /** `escape(s)` as written: `&` first, then `<`, `>` and `"`. */
  function Escape(s: string): string
  {
    Replace(Replace(Replace(Replace(s, "&", "&amp;"), "<", "&lt;"), ">", "&gt;"), "\"", "&quot;")
  }

  /** The four characters `escape` rewrites. */
  predicate Special(c: char)
  {
    c == '&' || c == '<' || c == '>' || c == '"'
  }

  predicate Safe(s: string)
  {
    forall i | 0 <= i < |s| :: !Special(s[i])
  }

  /** The reference each character stands for after escaping. */
  function Entity(c: char): string
  {
    if c == '&' then "&amp;"
    else if c == '<' then "&lt;"
    else if c == '>' then "&gt;"
    else if c == '"' then "&quot;"
    else [c]
  }

  /** Escaping as a substitution of each character by its entity. */
  function EscapeChars(s: string): string
  {
    if |s| == 0 then [] else Entity(s[0]) + EscapeChars(s[1..])
  }

  /** A decoder for the four references, left to right; every other character stands for itself. */
  function Unescape(s: string): string
    decreases |s|
  {
    if |s| == 0 then []
    else if |s| >= 5 && s[..5] == "&amp;" then "&" + Unescape(s[5..])
    else if |s| >= 4 && s[..4] == "&lt;" then "<" + Unescape(s[4..])
    else if |s| >= 4 && s[..4] == "&gt;" then ">" + Unescape(s[4..])
    else if |s| >= 6 && s[..6] == "&quot;" then "\"" + Unescape(s[6..])
    else [s[0]] + Unescape(s[1..])
  }

  // ---------------------------------------------------------------------
  // One replace of a single character is a substitution

  /** `s.replace(c, rep)` for a one-character pattern, character by character. */
  function SubstChar(s: string, c: char, rep: string): string
  {
    if |s| == 0 then [] else (if s[0] == c then rep else [s[0]]) + SubstChar(s[1..], c, rep)
  }

  lemma {:induction false} ReplaceOneChar(s: string, c: char, rep: string)
    ensures Replace(s, [c], rep) == SubstChar(s, c, rep)
    decreases |s|
  {
    if |s| > 0 {
      assert s[..1] == [s[0]];
      ReplaceOneChar(s[1..], c, rep);
    }
  }

  lemma {:induction false} SubstCharAppend(a: string, b: string, c: char, rep: string)
    ensures SubstChar(a + b, c, rep) == SubstChar(a, c, rep) + SubstChar(b, c, rep)
    decreases |a|
  {
    if |a| == 0 {
      assert a + b == b;
    } else {
      assert (a + b)[1..] == a[1..] + b;
      SubstCharAppend(a[1..], b, c, rep);
    }
  }

  /** The four stages of `escape`, each a substitution. */
  function Stages(s: string): string
  {
    SubstChar(SubstChar(SubstChar(SubstChar(s, '&', "&amp;"), '<', "&lt;"), '>', "&gt;"), '"', "&quot;")
  }

  lemma StagesAppend(a: string, b: string)
    ensures Stages(a + b) == Stages(a) + Stages(b)
  {
    SubstCharAppend(a, b, '&', "&amp;");
    var a1, b1 := SubstChar(a, '&', "&amp;"), SubstChar(b, '&', "&amp;");
    SubstCharAppend(a1, b1, '<', "&lt;");
    var a2, b2 := SubstChar(a1, '<', "&lt;"), SubstChar(b1, '<', "&lt;");
    SubstCharAppend(a2, b2, '>', "&gt;");
    var a3, b3 := SubstChar(a2, '>', "&gt;"), SubstChar(b2, '>', "&gt;");
    SubstCharAppend(a3, b3, '"', "&quot;");
  }

  /** A single character goes through the four stages to its entity: the
      `&` introduced by the first stage is never touched again. */
  lemma StagesOne(c: char)
    ensures Stages([c]) == Entity(c)
  {
    if c == '&' {
      StagesAmp(c);
    } else if c == '<' {
      StagesLt();
    } else if c == '>' {
      StagesGt();
    } else if c == '"' {
      StagesQuot();
    } else {
      StagesPlain(c);
    }
  }

  lemma StagesAmp(c: char)
    requires c == '&'
    ensures Stages([c]) == "&amp;"
  {
    SubstOne(c, '&', "&amp;");
    LaterStagesMiss("&amp;");
  }

  /** The last three stages leave alone a text without `<`, `>` and `"`. */
  lemma LaterStagesMiss(s: string)
    requires '<' !in s && '>' !in s && '"' !in s
    ensures SubstChar(SubstChar(SubstChar(s, '<', "&lt;"), '>', "&gt;"), '"', "&quot;") == s
  {
    SubstMiss(s, '<', "&lt;");
    SubstMiss(s, '>', "&gt;");
    SubstMiss(s, '"', "&quot;");
  }

  lemma StagesLt()
    ensures Stages("<") == "&lt;"
  {
    SubstOne('<', '&', "&amp;");
    SubstOne('<', '<', "&lt;");
    SubstMiss("&lt;", '>', "&gt;");
    SubstMiss("&lt;", '"', "&quot;");
  }

  lemma StagesGt()
    ensures Stages(">") == "&gt;"
  {
    SubstOne('>', '&', "&amp;");
    SubstOne('>', '<', "&lt;");
    SubstOne('>', '>', "&gt;");
    SubstMiss("&gt;", '"', "&quot;");
  }

  lemma StagesQuot()
    ensures Stages("\"") == "&quot;"
  {
    SubstOne('"', '&', "&amp;");
    SubstOne('"', '<', "&lt;");
    SubstOne('"', '>', "&gt;");
    SubstOne('"', '"', "&quot;");
  }

  lemma StagesPlain(c: char)
    requires !Special(c)
    ensures Stages([c]) == [c]
  {
    SubstOne(c, '&', "&amp;");
    SubstOne(c, '<', "&lt;");
    SubstOne(c, '>', "&gt;");
    SubstOne(c, '"', "&quot;");
  }

  lemma SubstOne(x: char, c: char, rep: string)
    ensures SubstChar([x], c, rep) == if x == c then rep else [x]
  {
    assert [x][1..] == [];
  }

  /** A text without `c` is left alone by its substitution. */
  lemma {:induction false} SubstMiss(s: string, c: char, rep: string)
    requires c !in s
    ensures SubstChar(s, c, rep) == s
    decreases |s|
  {
    if |s| > 0 {
      assert c !in s[1..] by { assert forall i | 0 <= i < |s[1..]| :: s[1..][i] == s[i + 1]; }
      SubstMiss(s[1..], c, rep);
      assert s == [s[0]] + s[1..];
    }
  }

  lemma {:induction false} StagesAreEntities(s: string)
    ensures Stages(s) == EscapeChars(s)
    decreases |s|
  {
    if |s| > 0 {
      assert s == [s[0]] + s[1..];
      StagesAppend([s[0]], s[1..]);
      StagesOne(s[0]);
      StagesAreEntities(s[1..]);
    }
  }

  /** The chain of replaces is the substitution of each character by its entity. */
  lemma EscapeIsSubstitution(s: string)
    ensures Escape(s) == EscapeChars(s)
  {
    ReplaceOneChar(s, '&', "&amp;");
    var s1 := SubstChar(s, '&', "&amp;");
    ReplaceOneChar(s1, '<', "&lt;");
    var s2 := SubstChar(s1, '<', "&lt;");
    ReplaceOneChar(s2, '>', "&gt;");
    var s3 := SubstChar(s2, '>', "&gt;");
    ReplaceOneChar(s3, '"', "&quot;");
    StagesAreEntities(s);
  }

  // ---------------------------------------------------------------------
  // Properties of escaping

  /** Decoding reads one entity back as its character. */
  lemma UnescapeEntity(c: char, rest: string)
    ensures Unescape(Entity(c) + rest) == [c] + Unescape(rest)
  {
    if c == '&' {
      UnescapeAmp(rest);
    } else if c == '<' {
      UnescapeLt(rest);
    } else if c == '>' {
      UnescapeGt(rest);
    } else if c == '"' {
      UnescapeQuot(rest);
    } else {
      UnescapePlain(c, rest);
    }
  }

  lemma UnescapeAmp(rest: string)
    ensures Unescape("&amp;" + rest) == "&" + Unescape(rest)
  {
    var e := "&amp;" + rest;
    assert e[..5] == "&amp;" && e[5..] == rest;
  }

  lemma UnescapeLt(rest: string)
    ensures Unescape("&lt;" + rest) == "<" + Unescape(rest)
  {
    var e := "&lt;" + rest;
    assert |e| >= 5 ==> e[..5][1] == 'l';
    assert e[..4] == "&lt;" && e[4..] == rest;
  }

  lemma UnescapeGt(rest: string)
    ensures Unescape("&gt;" + rest) == ">" + Unescape(rest)
  {
    var e := "&gt;" + rest;
    assert |e| >= 5 ==> e[..5][1] == 'g';
    assert e[..4][1] == 'g';
    assert e[..4] == "&gt;" && e[4..] == rest;
  }

  lemma UnescapeQuot(rest: string)
    ensures Unescape("&quot;" + rest) == "\"" + Unescape(rest)
  {
    var e := "&quot;" + rest;
    assert e[..5][1] == 'q';
    assert e[..4][1] == 'q';
    assert e[..6] == "&quot;" && e[6..] == rest;
  }

  lemma UnescapePlain(c: char, rest: string)
    requires !Special(c)
    ensures Unescape([c] + rest) == [c] + Unescape(rest)
  {
    var e := [c] + rest;
    assert |e| >= 4 ==> e[..4][0] == c && e[..4][0] != '&';
    assert |e| >= 5 ==> e[..5][0] == c;
    assert |e| >= 6 ==> e[..6][0] == c;
    assert e[1..] == rest;
  }

  lemma {:induction false} UnescapeEntities(s: string)
    ensures Unescape(EscapeChars(s)) == s
    decreases |s|
  {
    if |s| > 0 {
      UnescapeEntities(s[1..]);
      UnescapeEntity(s[0], EscapeChars(s[1..]));
      assert s == [s[0]] + s[1..];
    }
  }

  /** Escaping loses nothing: decoding gives the original text back. */
  lemma EscapeRoundTrip(s: string)
    ensures Unescape(Escape(s)) == s
  {
    EscapeIsSubstitution(s);
    UnescapeEntities(s);
  }

  /** Two texts escape alike only if they are the same text. */
  lemma EscapeInjective(a: string, b: string)
    ensures Escape(a) == Escape(b) <==> a == b
  {
    EscapeRoundTrip(a);
    EscapeRoundTrip(b);
  }

  lemma {:induction false} EntitiesHaveNoMarkup(s: string)
    ensures forall i | 0 <= i < |EscapeChars(s)| :: EscapeChars(s)[i] != '<' && EscapeChars(s)[i] != '>' && EscapeChars(s)[i] != '"'
    decreases |s|
  {
    if |s| > 0 {
      EntitiesHaveNoMarkup(s[1..]);
      var e := Entity(s[0]);
      var rest := EscapeChars(s[1..]);
      assert forall i | 0 <= i < |e| :: e[i] != '<' && e[i] != '>' && e[i] != '"';
      assert forall i | |e| <= i < |e + rest| :: (e + rest)[i] == rest[i - |e|];
    }
  }

  /** The output can neither open nor close a tag, nor end an attribute value. */
  lemma EscapeHasNoMarkup(s: string)
    ensures forall i | 0 <= i < |Escape(s)| :: Escape(s)[i] != '<' && Escape(s)[i] != '>' && Escape(s)[i] != '"'
  {
    EscapeIsSubstitution(s);
    EntitiesHaveNoMarkup(s);
  }

  lemma {:induction false} EntitiesOfSafe(s: string)
    requires Safe(s)
    ensures EscapeChars(s) == s
    decreases |s|
  {
    if |s| > 0 {
      assert !Special(s[0]);
      EntitiesOfSafe(s[1..]);
      assert s == [s[0]] + s[1..];
    }
  }

  /** Text without the four special characters passes through unchanged. */
  lemma EscapeSafe(s: string)
    requires Safe(s)
    ensures Escape(s) == s
  {
    EscapeIsSubstitution(s);
    EntitiesOfSafe(s);
  }

  /** Escaping never shortens, and lengthens exactly the texts holding a special character. */
  lemma {:induction false} EntitiesLength(s: string)
    ensures |EscapeChars(s)| >= |s|
    ensures |EscapeChars(s)| == |s| <==> Safe(s)
    ensures !Safe(s) ==> '&' in EscapeChars(s)
    decreases |s|
  {
    if |s| > 0 {
      EntitiesLength(s[1..]);
      var e := Entity(s[0]);
      var rest := EscapeChars(s[1..]);
      assert EscapeChars(s) == e + rest;
      if Special(s[0]) {
        assert |e| > 1 && e[0] == '&';
        assert (e + rest)[0] == '&';
      } else {
        assert Safe(s) <==> Safe(s[1..]) by {
          assert forall i | 1 <= i < |s| :: s[i] == s[1..][i - 1];
        }
        if !Safe(s[1..]) {
          var k :| 0 <= k < |rest| && rest[k] == '&';
          assert (e + rest)[k + 1] == '&';
        }
      }
    }
  }

  /** `escape` is not idempotent: escaping twice changes exactly the texts
      that hold a special character, since their escaped form holds `&`. */
  lemma EscapeTwiceIff(s: string)
    ensures Escape(Escape(s)) == Escape(s) <==> Safe(s)
  {
    EscapeIsSubstitution(s);
    EscapeIsSubstitution(Escape(s));
    EntitiesLength(s);
    EntitiesLength(Escape(s));
    if Safe(s) {
      EntitiesOfSafe(s);
    } else {
      var k :| 0 <= k < |Escape(s)| && Escape(s)[k] == '&';
      assert !Safe(Escape(s)) by { assert Special(Escape(s)[k]); }
    }
  }

  lemma {:induction false} EscapeCharsAppend(a: string, b: string)
    ensures EscapeChars(a + b) == EscapeChars(a) + EscapeChars(b)
    decreases |a|
  {
    if |a| == 0 {
      assert a + b == b;
    } else {
      assert (a + b)[1..] == a[1..] + b;
      EscapeCharsAppend(a[1..], b);
    }
  }
}
