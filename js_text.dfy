/**
 * The pieces of JavaScript string semantics that `cleanAIResponse` relies on:
 * the `\s` character class, `String.prototype.trim`, and the words of a text
 * (its maximal stretches of non-whitespace characters).
 */
module JsText {
  import opened Wrappers

  /** JavaScript truthiness of an optional string: absent, null and "" are falsy. */
  predicate Falsy(text: Option<string>)
    ensures Falsy(text) ==> text.None? || text.value == []
    ensures text.Some? && text.value != [] ==> !Falsy(text)
  {
    text == None || text == Some("")
  }

  /** JavaScript `text || fallback` on an optional string. */
  function Or(text: Option<string>, fallback: string): (r: string)
    ensures Falsy(text) ==> r == fallback
    ensures !Falsy(text) ==> Some(r) == text && r != []
  {
    if Falsy(text) then fallback else text.value
  }

  /** ECMAScript `\s`: the WhiteSpace and LineTerminator code points. `trim()` strips the same set. */
  predicate IsSpace(c: char)
    ensures c == ' ' || c == '\t' || c == '\n' || c == '\r' ==> IsSpace(c)
    ensures '0' <= c <= '9' || 'a' <= c <= 'z' || 'A' <= c <= 'Z' ==> !IsSpace(c)
    ensures IsSpace(c) ==> c != '{' && c != '}' && c != '"' && c != '`'
    ensures IsSpace(c) ==> c <= '\U{FFFF}'
  {
    || c == '\t' || c == '\n' || c == '\U{B}' || c == '\U{C}' || c == '\r'
    || c == ' ' || c == '\U{A0}' || c == '\U{1680}'
    || ('\U{2000}' <= c <= '\U{200A}')
    || c == '\U{2028}' || c == '\U{2029}' || c == '\U{202F}' || c == '\U{205F}'
    || c == '\U{3000}' || c == '\U{FEFF}'
  }

  /** No character of `s` is whitespace. */
  predicate NoSpace(s: string)
  {
    forall i :: 0 <= i < |s| ==> !IsSpace(s[i])
  }

  /** Every character of `s` is whitespace. */
  predicate AllSpace(s: string)
  {
    forall i :: 0 <= i < |s| ==> IsSpace(s[i])
  }

  /** `s` neither starts nor ends with whitespace: what `trim()` guarantees. */
  predicate Trimmed(s: string)
  {
    s == [] || (!IsSpace(s[0]) && !IsSpace(s[|s| - 1]))
  }

  /** Every whitespace character of `s` is a plain space, and no two of them are adjacent. */
  predicate SpacesSingle(s: string)
  {
    && (forall i :: 0 <= i < |s| && IsSpace(s[i]) ==> s[i] == ' ')
    && (forall i :: 0 <= i < |s| - 1 ==> !IsSpace(s[i]) || !IsSpace(s[i + 1]))
  }

  /** Text whose words are separated by exactly one space, with nothing at either end. */
  predicate SingleSpaced(s: string)
  {
    Trimmed(s) && SpacesSingle(s)
  }

  /** Length of the whitespace run at the start of `s`. */
  function SpaceLen(s: string): (n: nat)
    ensures n <= |s|
    ensures AllSpace(s[..n])
    ensures n == |s| || !IsSpace(s[n])
  {
    if s == [] || !IsSpace(s[0]) then 0 else 1 + SpaceLen(s[1..])
  }

  /** Length of the non-whitespace stretch at the start of `s`. */
  function WordLen(s: string): (n: nat)
    ensures n <= |s|
    ensures NoSpace(s[..n])
    ensures n == |s| || IsSpace(s[n])
  {
    if s == [] || IsSpace(s[0]) then 0 else 1 + WordLen(s[1..])
  }

  /** `String.prototype.trimStart`: drops the leading whitespace run. */
  function TrimStart(s: string): (r: string)
    ensures |r| <= |s| && r == s[|s| - |r|..]
    ensures AllSpace(s[..|s| - |r|])
    ensures r == [] || !IsSpace(r[0])
  {
    s[SpaceLen(s)..]
  }

  /** `String.prototype.trimEnd`: drops the trailing whitespace run. */
  function TrimEnd(s: string): (r: string)
    ensures |r| <= |s| && r == s[..|r|]
    ensures AllSpace(s[|r|..])
    ensures r == [] || !IsSpace(r[|r| - 1])
  {
    if s != [] && IsSpace(s[|s| - 1]) then
      var t := s[..|s| - 1];
      var r := TrimEnd(t);
      assert s[..|r|] == t[..|r|] && s[|r|..] == t[|r|..] + [s[|s| - 1]];
      r
    else s
  }

  /** `String.prototype.trim`. */
  function Trim(s: string): (r: string)
    ensures |r| <= |s|
    ensures Trimmed(r)
  {
    TrimEnd(TrimStart(s))
  }

  /** The words of `s`, left to right: its maximal non-empty stretches without whitespace. */
  function Words(s: string): (ws: seq<string>)
    decreases |s|
  {
    if s == [] then []
    else if IsSpace(s[0]) then Words(s[SpaceLen(s)..])
    else var n := WordLen(s); [s[..n]] + Words(s[n..])
  }

  /** The words `ws` joined by single spaces (JavaScript `ws.join(" ")`). */
  function JoinWords(ws: seq<string>): string
  {
    if |ws| == 0 then []
    else if |ws| == 1 then ws[0]
    else ws[0] + " " + JoinWords(ws[1..])
  }

  /** A word: non-empty, without whitespace. */
  predicate IsWord(w: string)
  {
    w != [] && NoSpace(w)
  }

  /** Every entry of `Words(s)` is a word made of characters of `s`. */
  lemma {:induction false} WordsAreWords(s: string)
    ensures forall k :: 0 <= k < |Words(s)| ==> IsWord(Words(s)[k])
    ensures forall k, c :: 0 <= k < |Words(s)| && c in Words(s)[k] ==> c in s
    decreases |s|
  {
    if s == [] {
    } else if IsSpace(s[0]) {
      var n := SpaceLen(s);
      WordsAreWords(s[n..]);
      forall c | c in s[n..] ensures c in s {
        var i :| 0 <= i < |s[n..]| && s[n..][i] == c;
        assert s[n + i] == c;
      }
    } else {
      var n := WordLen(s);
      WordsAreWords(s[n..]);
      var ws := Words(s);
      assert ws == [s[..n]] + Words(s[n..]);
      forall k, c | 0 <= k < |ws| && c in ws[k] ensures c in s {
        if k == 0 {
          var i :| 0 <= i < n && s[..n][i] == c;
          assert s[i] == c;
        } else {
          assert ws[k] == Words(s[n..])[k - 1];
          assert c in s[n..];
          var i :| 0 <= i < |s[n..]| && s[n..][i] == c;
          assert s[n + i] == c;
        }
      }
    }
  }

  /** A text has no words exactly when it is all whitespace. */
  lemma {:induction false} WordsEmptyIffAllSpace(s: string)
    ensures Words(s) == [] <==> AllSpace(s)
    decreases |s|
  {
    if s != [] && IsSpace(s[0]) {
      var n := SpaceLen(s);
      WordsEmptyIffAllSpace(s[n..]);
      if AllSpace(s[n..]) {
        forall i | 0 <= i < |s| ensures IsSpace(s[i]) {
          assert s[i] == s[..n][i];
        }
      }
    }
  }

  /** Joining words gives single-spaced text, which is empty only when there are no words. */
  lemma {:induction false} JoinSingleSpaced(ws: seq<string>)
    requires forall k :: 0 <= k < |ws| ==> IsWord(ws[k])
    ensures SingleSpaced(JoinWords(ws))
    ensures JoinWords(ws) == [] <==> ws == []
    ensures ws != [] ==> JoinWords(ws)[0] == ws[0][0]
  {
    if |ws| >= 2 {
      JoinSingleSpaced(ws[1..]);
      var a, b := ws[0], JoinWords(ws[1..]);
      var r := a + " " + b;
      assert IsWord(a);
      assert r == JoinWords(ws);
      forall i | 0 <= i < |r| && IsSpace(r[i]) ensures r[i] == ' ' {
        if i > |a| { assert r[i] == b[i - |a| - 1]; }
      }
      forall i | 0 <= i < |r| - 1 ensures !IsSpace(r[i]) || !IsSpace(r[i + 1]) {
        if i > |a| { assert r[i] == b[i - |a| - 1] && r[i + 1] == b[i - |a|]; }
        else if i == |a| { assert r[i + 1] == b[0]; }
      }
      assert r[|r| - 1] == b[|b| - 1];
    }
  }

  /** Joining adds no character other than the separating space. */
  lemma {:induction false} JoinChars(ws: seq<string>, s: string)
    requires forall k, c :: 0 <= k < |ws| && c in ws[k] ==> c in s
    ensures forall c :: c in JoinWords(ws) ==> c == ' ' || c in s
  {
    if |ws| >= 2 {
      JoinChars(ws[1..], s);
      assert forall c :: c in ws[0] ==> c in s;
      assert JoinWords(ws) == ws[0] + " " + JoinWords(ws[1..]);
    }
  }

  /** Two texts with single spaces stay so when joined, unless a whitespace character ends the first and starts the second. */
  lemma SpacesSingleAppend(a: string, b: string)
    requires SpacesSingle(a) && SpacesSingle(b)
    requires a == [] || b == [] || !IsSpace(a[|a| - 1]) || !IsSpace(b[0])
    ensures SpacesSingle(a + b)
  {
    var r := a + b;
    forall i | 0 <= i < |r| - 1 ensures !IsSpace(r[i]) || !IsSpace(r[i + 1]) {
      if i + 1 < |a| {
        assert r[i] == a[i] && r[i + 1] == a[i + 1];
      } else if i >= |a| {
        assert r[i] == b[i - |a|] && r[i + 1] == b[i + 1 - |a|];
      } else {
        assert r[i] == a[|a| - 1] && r[i + 1] == b[0];
      }
    }
    forall i | 0 <= i < |r| && IsSpace(r[i]) ensures r[i] == ' ' {
      if i < |a| { assert r[i] == a[i]; } else { assert r[i] == b[i - |a|]; }
    }
  }

  /** Joining a word in front of further words puts one space between them. */
  lemma JoinCons(w: string, ws: seq<string>)
    requires ws != []
    ensures JoinWords([w] + ws) == w + " " + JoinWords(ws)
  {
    assert ([w] + ws)[1..] == ws;
  }

  /** Every suffix of a text with single spaces has single spaces. */
  lemma SpacesSingleSuffix(s: string, k: nat)
    requires SpacesSingle(s) && k <= |s|
    ensures SpacesSingle(s[k..])
  {
    var t := s[k..];
    forall i | 0 <= i < |t| - 1 ensures !IsSpace(t[i]) || !IsSpace(t[i + 1]) {
      assert t[i] == s[k + i] && t[i + 1] == s[k + i + 1];
    }
    forall i | 0 <= i < |t| && IsSpace(t[i]) ensures t[i] == ' ' {
      assert t[i] == s[k + i];
    }
  }

  /** Single-spaced text that is more than one word: its first word, one space, then single-spaced text. */
  lemma SingleSpacedSplit(s: string)
    requires SingleSpaced(s) && s != [] && WordLen(s) < |s|
    ensures var n := WordLen(s);
      && n + 1 < |s| && s[n] == ' '
      && SingleSpaced(s[n + 1..]) && !IsSpace(s[n + 1])
      && Words(s) == [s[..n]] + Words(s[n + 1..])
      && s == s[..n] + " " + s[n + 1..]
  {
    var n := WordLen(s);
    assert s[n] == ' ' && n + 1 < |s| && !IsSpace(s[n + 1]) by {
      assert IsSpace(s[n]) && !IsSpace(s[|s| - 1]);
    }
    SpacesSingleSuffix(s, n + 1);
    WordsAfterWordAndSpace(s, n);
    SplitAround(s, n);
  }

  /** A word followed by one whitespace character and a non-whitespace character: the word, then the words after the space. */
  lemma WordsAfterWordAndSpace(s: string, n: nat)
    requires s != [] && !IsSpace(s[0]) && n == WordLen(s) && n + 1 < |s| && !IsSpace(s[n + 1])
    ensures Words(s) == [s[..n]] + Words(s[n + 1..])
  {
    var rest := s[n..];
    assert IsSpace(rest[0]);
    assert rest[1..] == s[n + 1..];
    assert SpaceLen(rest[1..]) == 0;
    assert Words(rest) == Words(rest[1..]);
  }

  /** A text is what comes before position `n`, the character at `n`, and what follows. */
  lemma SplitAround(s: string, n: nat)
    requires n < |s|
    ensures s == s[..n] + [s[n]] + s[n + 1..]
  {
  }

  /** Single-spaced text is the join of its own words. */
  lemma {:induction false} JoinOfWords(s: string)
    requires SingleSpaced(s)
    ensures JoinWords(Words(s)) == s
    decreases |s|
  {
    if s != [] {
      var n := WordLen(s);
      if n == |s| {
        assert s[..n] == s && s[n..] == [];
        assert Words(s) == [s];
      } else {
        SingleSpacedSplit(s);
        var tail := s[n + 1..];
        JoinOfWords(tail);
        WordsEmptyIffAllSpace(tail);
        JoinCons(s[..n], Words(tail));
      }
    }
  }
}
