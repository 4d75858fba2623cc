/**
 * `cleanAIResponse` of server.js: the text transform applied to every
 * completion before it is sent back to the browser. It replaces a falsy input
 * by a fixed apology; otherwise it deletes the code-fence markers, then every
 * brace and double quote, collapses each whitespace run into one space and
 * trims the result.
 */
module CleanResponse {
  import opened Wrappers
  import opened JsText

  /** The reply used when there is no text to clean (note the U+2019 apostrophes). */
  const Apology: string :=
    "I\U{2019}m sorry, " + "I couldn\U{2019}t " + "generate a " + "response right now."

  /** The two alternatives of the fence pattern, tried in this order at each position. */
  const JsonFence: string := "```json"
  const Fence: string := "```"

  /** A character of the class `[{}"]`. */
  predicate IsBraceOrQuote(c: char)
  {
    c == '{' || c == '}' || c == '"'
  }

  predicate NoBraceOrQuote(s: string)
  {
    forall i :: 0 <= i < |s| ==> !IsBraceOrQuote(s[i])
  }

  /** `r` is obtained from `s` by deleting characters: the rest keep their order. */
  predicate IsSubsequence(r: string, s: string)
    decreases |s|
  {
    if r == [] then true
    else if s == [] then false
    else (r[0] == s[0] && IsSubsequence(r[1..], s[1..])) || IsSubsequence(r, s[1..])
  }

  /** A subsequence of a suffix is a subsequence of the whole text. */
  lemma {:induction false} SubsequenceOfSuffix(r: string, s: string, k: nat)
    requires k <= |s| && IsSubsequence(r, s[k..])
    ensures IsSubsequence(r, s)
    decreases k
  {
    if k > 0 {
      assert s[k - 1..][1..] == s[k..];
      SubsequenceOfSuffix(r, s, k - 1);
    }
  }

  /** No three consecutive backticks: no match of the fence pattern is left. */
  predicate NoFence(s: string)
  {
    forall i :: 0 <= i < |s| - 2 ==> !(s[i] == '`' && s[i + 1] == '`' && s[i + 2] == '`')
  }

  /** A character that may belong to a match of the fence pattern. */
  predicate InFencePattern(c: char)
  {
    c == '`' || c == 'j' || c == 's' || c == 'o' || c == 'n'
  }

  /**
   * `.replace(/```json|```/g, "")`: one left-to-right scan that deletes each
   * match and resumes after it; "```json" is tried before "```".
   */
  function StripFences(s: string): (r: string)
    ensures |r| <= |s|
    ensures forall c :: c in r ==> c in s
    decreases |s|
  {
    if s == [] then []
    else if JsonFence <= s then StripFences(s[|JsonFence|..])
    else if Fence <= s then StripFences(s[|Fence|..])
    else [s[0]] + StripFences(s[1..])
  }

  /** The fence pass only deletes: its result is a subsequence of its input. */
  lemma {:induction false} StripFencesOnlyDeletes(s: string)
    ensures IsSubsequence(StripFences(s), s)
    decreases |s|
  {
    if s == [] {
    } else if JsonFence <= s {
      StripFencesOnlyDeletes(s[|JsonFence|..]);
      SubsequenceOfSuffix(StripFences(s), s, |JsonFence|);
    } else if Fence <= s {
      StripFencesOnlyDeletes(s[|Fence|..]);
      SubsequenceOfSuffix(StripFences(s), s, |Fence|);
    } else {
      StripFencesOnlyDeletes(s[1..]);
    }
  }

  /** Text before the first backtick is copied: a non-backtick first character starts the result. */
  lemma StripFencesCopiesHead(s: string)
    requires s != [] && s[0] != '`'
    ensures StripFences(s) == [s[0]] + StripFences(s[1..])
  {
    assert !(JsonFence <= s) && !(Fence <= s) by {
      assert JsonFence[0] == '`' && Fence[0] == '`';
    }
  }

  /** Text that does not start with two backticks is not turned into text that does. */
  lemma StripFencesNoDoubleBacktickHead(t: string)
    requires |t| < 2 || t[0] != '`' || t[1] != '`'
    ensures var r := StripFences(t); |r| < 2 || r[0] != '`' || r[1] != '`'
  {
    if t != [] && t[0] != '`' {
      StripFencesCopiesHead(t);
    } else if t != [] {
      assert !(JsonFence <= t) && !(Fence <= t) by {
        assert |t| < 2 || t[1] != '`';
      }
      if t[1..] != [] {
        StripFencesCopiesHead(t[1..]);
      }
    }
  }

  /** The fence pass leaves no three consecutive backticks, so no fence survives it. */
  lemma {:induction false} StripFencesLeavesNoFence(s: string)
    ensures NoFence(StripFences(s))
    decreases |s|
  {
    if s == [] {
    } else if JsonFence <= s {
      StripFencesLeavesNoFence(s[|JsonFence|..]);
    } else if Fence <= s {
      StripFencesLeavesNoFence(s[|Fence|..]);
    } else {
      var rt := StripFences(s[1..]);
      StripFencesLeavesNoFence(s[1..]);
      if s[0] == '`' {
        assert |s| < 3 || s[1] != '`' || s[2] != '`';
        StripFencesNoDoubleBacktickHead(s[1..]);
      }
      var r := [s[0]] + rt;
      assert StripFences(s) == r;
      forall i | 0 <= i < |r| - 2
        ensures !(r[i] == '`' && r[i + 1] == '`' && r[i + 2] == '`')
      {
        if i > 0 {
          assert r[i] == rt[i - 1] && r[i + 1] == rt[i] && r[i + 2] == rt[i + 1];
        }
      }
    }
  }

  /** A text with a non-backtick among its first three characters starts with no fence. */
  lemma NoFenceStart(s: string, k: nat)
    requires k < 3 && k < |s| && s[k] != '`'
    ensures !(Fence <= s) && !(JsonFence <= s)
  {
    assert Fence[k] == '`' && JsonFence[k] == '`';
  }

  /** Where a text holding no fence has three characters, one of the first three is not a backtick. */
  lemma FenceFreeHead(s: string) returns (k: nat)
    requires NoFence(s) && |s| >= 3
    ensures k < 3 && s[k] != '`'
  {
    assert !(s[0] == '`' && s[1] == '`' && s[2] == '`');
    k := if s[0] != '`' then 0 else if s[1] != '`' then 1 else 2;
  }

  /** Text holding no fence passes the fence pass unchanged. */
  lemma {:induction false} StripFencesKeepsFenceFree(s: string)
    requires NoFence(s)
    ensures StripFences(s) == s
    decreases |s|
  {
    if s != [] {
      if |s| >= 3 {
        var k := FenceFreeHead(s);
        NoFenceStart(s, k);
      }
      StripFencesKeepsFenceFree(s[1..]);
    }
  }

  /** The fixed points of the fence pass are exactly the texts that hold no fence. */
  lemma StripFencesFixedPoints(s: string)
    ensures StripFences(s) == s <==> NoFence(s)
  {
    StripFencesLeavesNoFence(s);
    if NoFence(s) {
      StripFencesKeepsFenceFree(s);
    }
  }

  /** Dropping the first character of a text that holds no fence leaves a text that holds none. */
  lemma NoFenceTail(a: string)
    requires a != [] && NoFence(a)
    ensures NoFence(a[1..])
  {
    var t := a[1..];
    forall i | 0 <= i < |t| - 2
      ensures !(t[i] == '`' && t[i + 1] == '`' && t[i + 2] == '`')
    {
      assert t[i] == a[i + 1] && t[i + 1] == a[i + 2] && t[i + 2] == a[i + 3];
    }
  }

  /** A fence-free prefix not ending in a backtick starts no match, so its first character is copied. */
  lemma StripFencesPrefixStep(a: string, b: string)
    requires a != [] && NoFence(a) && a[|a| - 1] != '`'
    ensures StripFences(a + b) == [a[0]] + StripFences(a[1..] + b)
  {
    var s := a + b;
    var k: nat := |a| - 1;
    if |a| >= 3 {
      k := FenceFreeHead(a);
    }
    assert s[k] == a[k];
    NoFenceStart(s, k);
    assert s[1..] == a[1..] + b;
  }

  /**
   * Text before the first fence is copied unchanged: a fence-free prefix that
   * does not end in a backtick cannot be part of a match.
   */
  lemma {:induction false} StripFencesCopiesFenceFreePrefix(a: string, b: string)
    requires NoFence(a) && (a == [] || a[|a| - 1] != '`')
    ensures StripFences(a + b) == a + StripFences(b)
    decreases |a|
  {
    if a == [] {
      assert a + b == b;
    } else {
      var a' := a[1..];
      var tail := StripFences(a' + b);
      assert StripFences(a + b) == [a[0]] + tail by {
        StripFencesPrefixStep(a, b);
      }
      assert NoFence(a') && (a' == [] || a'[|a'| - 1] != '`') by {
        NoFenceTail(a);
        assert a' == [] || a'[|a'| - 1] == a[|a| - 1];
      }
      StripFencesCopiesFenceFreePrefix(a', b);
      ConsAppend(a[0], a', StripFences(b));
      assert a == [a[0]] + a';
    }
  }

  /** A match of "```" that is not followed by "json" is not a match of "```json". */
  lemma BareFenceIsNoJsonFence(b: string)
    requires !("json" <= b)
    ensures !(JsonFence <= Fence + b)
  {
    var t := Fence + b;
    if |b| >= 4 {
      assert t[..7] == Fence + b[..4];
      assert (Fence + b[..4])[3..] == b[..4] != "json" == JsonFence[3..];
    } else {
      assert |t| < |JsonFence|;
    }
  }

  /**
   * A match found after a fence-free prefix is deleted whole and the scan
   * resumes right after it; "```" is a match only where "```json" is not.
   */
  lemma StripFencesDeletesFirstMatch(a: string, m: string, b: string)
    requires NoFence(a) && (a == [] || a[|a| - 1] != '`')
    requires m == JsonFence || (m == Fence && !("json" <= b))
    ensures StripFences(a + m + b) == a + StripFences(b)
  {
    var t := m + b;
    assert a + m + b == a + t;
    assert StripFences(a + t) == a + StripFences(t) by {
      StripFencesCopiesFenceFreePrefix(a, t);
    }
    assert StripFences(t) == StripFences(b) by {
      assert m <= t && t[|m|..] == b;
      if m == Fence {
        BareFenceIsNoJsonFence(b);
      }
    }
  }

  /** Putting a character in front of a concatenation. */
  lemma ConsAppend(c: char, x: string, y: string)
    ensures [c] + (x + y) == ([c] + x) + y
  {
  }

  /** Deleting a prefix made of pattern characters keeps the count of every other character. */
  lemma DropPatternPrefix(s: string, n: nat, c: char)
    requires n <= |s| && !InFencePattern(c)
    requires forall i :: 0 <= i < n ==> InFencePattern(s[i])
    ensures multiset(s[n..])[c] == multiset(s)[c]
  {
    assert s == s[..n] + s[n..];
    assert c !in s[..n];
    assert multiset(s) == multiset(s[..n]) + multiset(s[n..]);
  }

  /** The fence pass deletes only backticks and the letters of "json": every other character keeps its count. */
  lemma {:induction false} StripFencesKeepsOthers(s: string, c: char)
    requires !InFencePattern(c)
    ensures multiset(StripFences(s))[c] == multiset(s)[c]
    decreases |s|
  {
    if s == [] {
    } else if JsonFence <= s {
      assert forall i :: 0 <= i < |JsonFence| ==> s[i] == JsonFence[i];
      DropPatternPrefix(s, |JsonFence|, c);
      StripFencesKeepsOthers(s[|JsonFence|..], c);
    } else if Fence <= s {
      assert forall i :: 0 <= i < |Fence| ==> s[i] == Fence[i];
      DropPatternPrefix(s, |Fence|, c);
      StripFencesKeepsOthers(s[|Fence|..], c);
    } else {
      assert s == [s[0]] + s[1..];
      StripFencesKeepsOthers(s[1..], c);
    }
  }

  /** `.replace(/[{}"]/g, "")`: deletes every brace and double quote. */
  function DropBracesAndQuotes(s: string): (r: string)
    ensures |r| <= |s|
    ensures NoBraceOrQuote(r)
    ensures forall c :: c in r ==> c in s
  {
    if s == [] then []
    else if IsBraceOrQuote(s[0]) then DropBracesAndQuotes(s[1..])
    else [s[0]] + DropBracesAndQuotes(s[1..])
  }

  /** The brace pass only deletes: its result is a subsequence of its input. */
  lemma {:induction false} DropBracesAndQuotesOnlyDeletes(s: string)
    ensures IsSubsequence(DropBracesAndQuotes(s), s)
    decreases |s|
  {
    if s != [] {
      DropBracesAndQuotesOnlyDeletes(s[1..]);
      if IsBraceOrQuote(s[0]) {
        SubsequenceOfSuffix(DropBracesAndQuotes(s), s, 1);
      }
    }
  }

  /** The brace pass keeps every character other than a brace or a double quote, as often as it occurs. */
  lemma {:induction false} DropBracesAndQuotesKeepsOthers(s: string, c: char)
    requires !IsBraceOrQuote(c)
    ensures multiset(DropBracesAndQuotes(s))[c] == multiset(s)[c]
    decreases |s|
  {
    if s != [] {
      assert s == [s[0]] + s[1..];
      DropBracesAndQuotesKeepsOthers(s[1..], c);
    }
  }

  /** The brace pass works character by character, so it distributes over concatenation. */
  lemma {:induction false} DropBracesAndQuotesAppend(a: string, b: string)
    ensures DropBracesAndQuotes(a + b) == DropBracesAndQuotes(a) + DropBracesAndQuotes(b)
    decreases |a|
  {
    if a == [] {
      assert a + b == b;
    } else {
      assert (a + b)[0] == a[0] && (a + b)[1..] == a[1..] + b;
      DropBracesAndQuotesAppend(a[1..], b);
    }
  }

  /**
   * `.replace(/\s+/g, " ")`: each maximal whitespace run becomes one space,
   * each stretch between runs is copied unchanged.
   */
  function CollapseSpaces(s: string): (r: string)
    ensures |r| <= |s|
    decreases |s|
  {
    if s == [] then []
    else if IsSpace(s[0]) then " " + CollapseSpaces(s[SpaceLen(s)..])
    else var n := WordLen(s); s[..n] + CollapseSpaces(s[n..])
  }

  /** `cleanAIResponse(text)`. */
  function CleanAIResponse(text: Option<string>): (r: string)
    ensures Falsy(text) ==> r == Apology
    ensures !Falsy(text) ==> |r| <= |text.value|
  {
    if Falsy(text) then Apology
    else Trim(CollapseSpaces(DropBracesAndQuotes(StripFences(text.value))))
  }

  /** Trimming the end of `a + b` only touches `b` when `b` starts with a non-whitespace character. */
  lemma {:induction false} TrimEndAppend(a: string, b: string)
    requires b != [] && !IsSpace(b[0])
    ensures TrimEnd(a + b) == a + TrimEnd(b)
    decreases |b|
  {
    if IsSpace(b[|b| - 1]) {
      var b' := b[..|b| - 1];
      assert (a + b)[..|a + b| - 1] == a + b';
      TrimEndAppend(a, b');
    }
  }

  /** A text that starts with a word is collapsed to that word, then the collapse of the rest. */
  lemma CollapseAtWord(u: string)
    requires u != [] && !IsSpace(u[0])
    ensures WordLen(u) > 0
    ensures CollapseSpaces(u) == u[..WordLen(u)] + CollapseSpaces(u[WordLen(u)..])
    ensures Words(u) == [u[..WordLen(u)]] + Words(u[WordLen(u)..])
    ensures CollapseSpaces(u) != [] && CollapseSpaces(u)[0] == u[0]
  {
  }

  /** A text that starts with whitespace is collapsed to one space, then the collapse of what follows the run. */
  lemma CollapseAtSpace(u: string)
    requires u != [] && IsSpace(u[0])
    ensures CollapseSpaces(u) == " " + CollapseSpaces(u[SpaceLen(u)..])
    ensures Words(u) == Words(u[SpaceLen(u)..])
  {
  }

  /** A word followed by a whitespace run collapses to the word, one space, then the collapse of what follows. */
  lemma CollapseWordThenSpace(u: string)
    requires u != [] && !IsSpace(u[0]) && WordLen(u) < |u|
    ensures var n := WordLen(u); var u2 := u[n..][SpaceLen(u[n..])..];
      && CollapseSpaces(u) == (u[..n] + " ") + CollapseSpaces(u2)
      && Words(u) == [u[..n]] + Words(u2)
      && (u2 == [] || !IsSpace(u2[0]))
      && |u2| < |u|
  {
    CollapseAtWord(u);
    var n := WordLen(u);
    var w, rest := u[..n], u[n..];
    CollapseAtSpace(rest);
    var u2 := rest[SpaceLen(rest)..];
    var x := CollapseSpaces(u2);
    assert CollapseSpaces(u) == w + (" " + x);
    assert w + (" " + x) == (w + " ") + x;
  }

  /** Collapsing text that starts with a word, then trimming its end, joins its words with single spaces. */
  lemma {:induction false} TrimEndCollapse(u: string)
    requires u == [] || !IsSpace(u[0])
    ensures TrimEnd(CollapseSpaces(u)) == JoinWords(Words(u))
    decreases |u|
  {
    if u != [] {
      CollapseAtWord(u);
      var n := WordLen(u);
      var w := u[..n];
      if n == |u| {
        assert u[n..] == [] && w == u;
        assert CollapseSpaces(u) == w;
        assert Words(u) == [w];
      } else {
        CollapseWordThenSpace(u);
        var u2 := u[n..][SpaceLen(u[n..])..];
        if u2 == [] {
          assert CollapseSpaces(u) == w + " ";
          assert (w + " ")[..|w|] == w;
          assert Words(u) == [w];
        } else {
          TrimEndCollapse(u2);
          CollapseAtWord(u2);
          JoinAfterWord(w, CollapseSpaces(u2), Words(u2));
        }
      }
    }
  }

  /** One word and a space in front of a collapsed tail that starts with a word. */
  lemma JoinAfterWord(w: string, x: string, ws: seq<string>)
    requires x != [] && !IsSpace(x[0]) && ws != []
    requires TrimEnd(x) == JoinWords(ws)
    ensures TrimEnd((w + " ") + x) == JoinWords([w] + ws)
  {
    TrimEndAppend(w + " ", x);
    JoinCons(w, ws);
  }

  /** Collapsing whitespace runs and trimming turns any text into its words joined by single spaces. */
  lemma {:induction false} NormalizeIsJoinWords(t: string)
    ensures Trim(CollapseSpaces(t)) == JoinWords(Words(t))
  {
    if t != [] && IsSpace(t[0]) {
      CollapseAtSpace(t);
      var u := t[SpaceLen(t)..];
      var x := CollapseSpaces(u);
      TrimEndCollapse(u);
      if u != [] {
        CollapseAtWord(u);
      }
      assert SpaceLen(x) == 0;
      assert (" " + x)[1..] == x;
      assert SpaceLen(" " + x) == 1;
      assert TrimStart(" " + x) == x;
    } else {
      TrimEndCollapse(t);
      if t != [] {
        CollapseAtWord(t);
      }
    }
  }

  /**
   * The meaning of `cleanAIResponse` on a truthy string: the words of the
   * text left once fences, braces and quotes are gone, joined by single spaces.
   */
  lemma CleanIsJoinedWords(s: string)
    requires s != []
    ensures CleanAIResponse(Some(s)) == JoinWords(Words(DropBracesAndQuotes(StripFences(s))))
  {
    NormalizeIsJoinWords(DropBracesAndQuotes(StripFences(s)));
  }

  /** A truthy input never yields a brace or a double quote. */
  lemma CleanHasNoBraceOrQuote(s: string)
    requires s != []
    ensures NoBraceOrQuote(CleanAIResponse(Some(s)))
  {
    var t := DropBracesAndQuotes(StripFences(s));
    var r := CleanAIResponse(Some(s));
    assert forall c :: c in r ==> c == ' ' || c in t by {
      CleanIsJoinedWords(s);
      WordsAreWords(t);
      JoinChars(Words(t), t);
    }
    forall i | 0 <= i < |r| ensures !IsBraceOrQuote(r[i]) {
      assert r[i] in r;
      if r[i] != ' ' {
        var j :| 0 <= j < |t| && t[j] == r[i];
      }
    }
  }

  /**
   * A truthy input yields text with no whitespace at either end, whose only
   * whitespace characters are single ASCII spaces.
   */
  lemma CleanIsSingleSpaced(s: string)
    requires s != []
    ensures SingleSpaced(CleanAIResponse(Some(s)))
  {
    var t := DropBracesAndQuotes(StripFences(s));
    CleanIsJoinedWords(s);
    WordsAreWords(t);
    JoinSingleSpaced(Words(t));
  }

  /** The apology itself has no brace or quote and is single-spaced. */
  lemma ApologyIsClean()
    ensures NoBraceOrQuote(Apology) && SingleSpaced(Apology)
  {
    var c1, c2, c3, c4 := "I\U{2019}m sorry, ", "I couldn\U{2019}t ", "generate a ", "response right now.";
    assert Apology == c1 + c2 + c3 + c4;
    ApologyPiece(c1);
    ApologyPiece(c2);
    ApologyPiece(c3);
    ApologyPiece(c4);
    SpacesSingleAppend(c1, c2);
    SpacesSingleAppend(c1 + c2, c3);
    SpacesSingleAppend(c1 + c2 + c3, c4);
    assert NoBraceOrQuote(c1 + c2 + c3 + c4) by {
      var a := c1 + c2 + c3 + c4;
      forall i | 0 <= i < |a| ensures !IsBraceOrQuote(a[i]) {
        assert a[i] in c1 || a[i] in c2 || a[i] in c3 || a[i] in c4;
      }
    }
  }

  /** The pieces of the apology each have no brace or quote and single spaces only. */
  lemma ApologyPiece(c: string)
    requires c in {"I\U{2019}m sorry, ", "I couldn\U{2019}t ", "generate a ", "response right now."}
    ensures NoBraceOrQuote(c) && SpacesSingle(c)
    ensures forall x :: x in c ==> !IsBraceOrQuote(x)
  {
    forall i | 0 <= i < |c| ensures !IsBraceOrQuote(c[i]) && (IsSpace(c[i]) ==> c[i] == ' ') { }
    forall i | 0 <= i < |c| - 1 ensures !IsSpace(c[i]) || !IsSpace(c[i + 1]) { }
  }

  /** Text made only of fence markers, braces, double quotes and whitespace. */
  predicate OnlyMarkup(s: string)
    decreases |s|
  {
    || s == []
    || (JsonFence <= s && OnlyMarkup(s[|JsonFence|..]))
    || (Fence <= s && OnlyMarkup(s[|Fence|..]))
    || ((IsBraceOrQuote(s[0]) || IsSpace(s[0])) && OnlyMarkup(s[1..]))
  }

  /** A text with no backtick, brace, double quote or whitespace character. */
  predicate Plain(s: string)
  {
    forall i :: 0 <= i < |s| ==> s[i] != '`' && !IsBraceOrQuote(s[i]) && !IsSpace(s[i])
  }

  /** Removing the fences from markup text leaves only braces, double quotes and whitespace. */
  lemma {:induction false} StripFencesOfMarkup(s: string)
    requires OnlyMarkup(s)
    ensures forall c :: c in StripFences(s) ==> IsBraceOrQuote(c) || IsSpace(c)
    decreases |s|
  {
    if s == [] {
    } else if JsonFence <= s {
      if !OnlyMarkup(s[|JsonFence|..]) && OnlyMarkup(s[|Fence|..]) {
        // "```" followed by markup cannot continue with "json"
        assert false;
      }
      StripFencesOfMarkup(s[|JsonFence|..]);
    } else if Fence <= s {
      assert OnlyMarkup(s[|Fence|..]);
      StripFencesOfMarkup(s[|Fence|..]);
    } else {
      assert OnlyMarkup(s[1..]);
      StripFencesOfMarkup(s[1..]);
    }
  }

  /** A non-empty input made only of fences, braces, quotes and whitespace cleans to "", not to the apology. */
  lemma CleanOfMarkupIsEmpty(s: string)
    requires s != [] && OnlyMarkup(s)
    ensures CleanAIResponse(Some(s)) == ""
  {
    var t := DropBracesAndQuotes(StripFences(s));
    StripFencesOfMarkup(s);
    assert AllSpace(t) by {
      forall i | 0 <= i < |t| ensures IsSpace(t[i]) {
        assert t[i] in t;
      }
    }
    WordsEmptyIffAllSpace(t);
    CleanIsJoinedWords(s);
  }

  /** Text without a backtick contains no fence, so the fence pass leaves it alone. */
  lemma StripFencesWithoutBacktick(s: string)
    requires '`' !in s
    ensures StripFences(s) == s
  {
    assert NoFence(s) by {
      forall i | 0 <= i < |s| - 2 ensures s[i] != '`' {
        assert s[i] in s;
      }
    }
    StripFencesKeepsFenceFree(s);
  }

  /** Text without braces or double quotes is left alone by the brace pass. */
  lemma {:induction false} DropBracesAndQuotesIdentity(s: string)
    requires NoBraceOrQuote(s)
    ensures DropBracesAndQuotes(s) == s
  {
    if s != [] {
      DropBracesAndQuotesIdentity(s[1..]);
    }
  }

  /**
   * The fixed points of the cleaning: non-empty, single-spaced text without
   * fences, braces or double quotes is returned unchanged.
   */
  lemma CleanKeepsCleanText(s: string)
    requires s != [] && NoFence(s) && NoBraceOrQuote(s) && SingleSpaced(s)
    ensures CleanAIResponse(Some(s)) == s
  {
    StripFencesKeepsFenceFree(s);
    DropBracesAndQuotesIdentity(s);
    CleanIsJoinedWords(s);
    JoinOfWords(s);
  }

  /** A non-empty input with no backtick, brace, double quote or whitespace is returned unchanged. */
  lemma CleanKeepsPlainText(s: string)
    requires s != [] && Plain(s)
    ensures CleanAIResponse(Some(s)) == s
  {
    assert NoFence(s) by {
      forall i | 0 <= i < |s| - 2 ensures s[i] != '`' { }
    }
    CleanKeepsCleanText(s);
  }

  /**
   * Cleaning is idempotent on its truthy results that hold no fence: a second
   * pass returns the same text.
   */
  lemma CleanIdempotent(s: string)
    requires s != []
    requires CleanAIResponse(Some(s)) != [] && NoFence(CleanAIResponse(Some(s)))
    ensures CleanAIResponse(Some(CleanAIResponse(Some(s)))) == CleanAIResponse(Some(s))
  {
    CleanHasNoBraceOrQuote(s);
    CleanIsSingleSpaced(s);
    CleanKeepsCleanText(CleanAIResponse(Some(s)));
  }

  /** "```json" disappears together with its fence marker. */
  lemma CleanDropsJsonFence(w: string)
    requires Plain(w)
    ensures CleanAIResponse(Some(JsonFence + w)) == w
  {
    var u := JsonFence + w;
    assert u[|JsonFence|..] == w;
    assert JsonFence <= u;
    assert StripFences(u) == StripFences(w);
    if w == [] {
      assert StripFences(w) == [];
    } else {
      CleanKeepsPlainText(w);
    }
  }

  /** The fence match is case-sensitive: "```JSON" loses only its backticks. */
  lemma CleanFenceIsCaseSensitive(w: string)
    requires Plain(w)
    ensures CleanAIResponse(Some("```JSON" + w)) == "JSON" + w
  {
    var u, v := "```JSON" + w, "JSON" + w;
    UpperJsonIsNoFence(w);
    PlainAfterJson(w);
    CleanKeepsPlainText(v);
    assert CleanAIResponse(Some(u)) == Trim(CollapseSpaces(DropBracesAndQuotes(StripFences(v))));
  }

  /** "```JSON" does not match "```json", so only "```" is deleted in front of it. */
  lemma UpperJsonIsNoFence(w: string)
    ensures StripFences("```JSON" + w) == StripFences("JSON" + w)
  {
    var u := "```JSON" + w;
    assert !(JsonFence <= u) by { assert u[3] == 'J'; }
    assert Fence <= u && u[|Fence|..] == "JSON" + w;
  }

  /** "JSON" in front of plain text keeps it plain. */
  lemma PlainAfterJson(w: string)
    requires Plain(w)
    ensures Plain("JSON" + w)
  {
    var v := "JSON" + w;
    forall i | 0 <= i < |v| ensures v[i] != '`' && !IsBraceOrQuote(v[i]) && !IsSpace(v[i]) {
      if i >= 4 { assert v[i] == w[i - 4]; }
    }
  }

  /** The fence pass runs before the brace pass, so a fence split by a brace survives the cleaning. */
  lemma FenceSplitByBraceSurvives()
    ensures CleanAIResponse(Some("`{``")) == "```"
  {
    SplitFenceFirstPasses();
    NormalizeKeepsBareFence();
  }

  /** A bare fence cleans to "". */
  lemma BareFenceCleansToEmpty()
    ensures CleanAIResponse(Some("```")) == ""
  {
    assert Fence <= "```" && StripFences("```") == [];
  }

  /** Cleaning is not idempotent on every input: a second pass removes the surviving fence of "`{``". */
  lemma CleanNotAlwaysIdempotent()
    ensures CleanAIResponse(Some(CleanAIResponse(Some("`{``")))) != CleanAIResponse(Some("`{``"))
  {
    FenceSplitByBraceSurvives();
    BareFenceCleansToEmpty();
  }

  /** No fence starts anywhere in "`{``", so the fence pass keeps it whole; the brace pass then leaves "```". */
  lemma SplitFenceFirstPasses()
    ensures DropBracesAndQuotes(StripFences("`{``")) == "```"
  {
    var s := "`{``";
    assert s[1] == '{' && s[1..][0] == '{' && |s[2..]| == 2;
    assert Fence[1] == '`' && Fence[0] == '`';
    assert !(JsonFence <= s) && !(Fence <= s) && !(Fence <= s[1..]) && !(Fence <= s[2..]);
    assert StripFences(s[3..]) == s[3..];
    assert StripFences(s[2..]) == s[2..];
    assert StripFences(s[1..]) == s[1..];
    assert StripFences(s) == s;
  }

  /** "```" is one word, so collapsing and trimming keep it. */
  lemma NormalizeKeepsBareFence()
    ensures Trim(CollapseSpaces("```")) == "```"
  {
    assert SingleSpaced("```");
    JoinOfWords("```");
    NormalizeIsJoinWords("```");
  }
}
