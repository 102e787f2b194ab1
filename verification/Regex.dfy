/** The fragment of Python's `re` that the log parsers use, as position-based
    matching primitives over a string, and `re.finditer` reduced to what the
    parsers keep of it: the groups of the last match. */
module Regex {
  import opened Wrappers
  import opened Strings

  /** A match of a pattern: its captured groups and the position just past it. */
  datatype Hit<T> = Hit(groups: T, end: nat)

  /** A literal at position `i`: the position after it. */
  function LitAt(s: string, i: nat, p: string): (r: Option<nat>)
    ensures r.Some? <==> OccursAt(s, p, i)
    ensures r.Some? ==> r.value == i + |p|
  {
    if OccursAt(s, p, i) then Some(i + |p|) else None
  }

  /** `[cls]*` at position `i`, greedy: the end of the longest run of `cls`
      characters. */
  function RunEnd(s: string, i: nat, cls: char -> bool): (j: nat)
    requires i <= |s|
    ensures i <= j <= |s|
    ensures forall k :: i <= k < j ==> cls(s[k])
    ensures j == |s| || !cls(s[j])
    decreases |s| - i
  {
    if i < |s| && cls(s[i]) then RunEnd(s, i + 1, cls) else i
  }

  /** `[cls]+` at position `i`, greedy. */
  function PlusAt(s: string, i: nat, cls: char -> bool): (r: Option<nat>)
    ensures r.Some? ==> i < r.value <= |s| && r.value == RunEnd(s, i, cls)
    ensures r.None? <==> i >= |s| || !cls(s[i])
  {
    if i < |s| && cls(s[i]) then Some(RunEnd(s, i, cls)) else None
  }

  /** `.` at position `i`: any character but a newline. */
  function AnyAt(s: string, i: nat): (r: Option<nat>)
    ensures r.Some? <==> i < |s| && s[i] != '\n'
    ensures r.Some? ==> r.value == i + 1
  {
    if i < |s| && s[i] != '\n' then Some(i + 1) else None
  }

  predicate NotNewline(c: char) { c != '\n' }

  /** `.*` at position `i`: everything up to the next newline or the end. */
  function LineEnd(s: string, i: nat): (j: nat)
    requires i <= |s|
    ensures i <= j <= |s|
    ensures forall k :: i <= k < j ==> s[k] != '\n'
    ensures j == |s| || s[j] == '\n'
  {
    RunEnd(s, i, NotNewline)
  }

  /** Every character of `w` belongs to `cls`. */
  predicate AllIn(w: string, cls: char -> bool) {
    forall k :: 0 <= k < |w| ==> cls(w[k])
  }

  /** A greedy run is determined by what follows it: if `w` is a run of `cls`
      at `i` and the next character is outside `cls`, the run ends after `w`. */
  lemma RunEndAfter(s: string, i: nat, w: string, cls: char -> bool)
    requires i + |w| <= |s| && s[i..i + |w|] == w && AllIn(w, cls)
    requires i + |w| == |s| || !cls(s[i + |w|])
    ensures RunEnd(s, i, cls) == i + |w|
  {
    forall k | i <= k < i + |w| ensures cls(s[k]) {
      assert s[k] == w[k - i];
    }
  }

  /** A run of `cls` at `i` never extends past the greedy run. */
  lemma RunWithin(s: string, i: nat, w: string, cls: char -> bool)
    requires i + |w| <= |s| && s[i..i + |w|] == w && AllIn(w, cls)
    ensures i + |w| <= RunEnd(s, i, cls)
  {
    forall k | i <= k < i + |w| ensures cls(s[k]) {
      assert s[k] == w[k - i];
    }
  }

  /** One element of a regular expression without alternation or backtracking:
      a literal, a character class repeated (`[...]*`, or `[...]+` when
      `nonEmpty`), or `.`. */
  datatype Token = Lit(text: string) | Run(cls: char -> bool, nonEmpty: bool) | AnyChar

  /** `w` is one text that token `t` can match. */
  ghost predicate Spells(t: Token, w: string) {
    match t
    case Lit(p) => w == p
    case Run(cls, nonEmpty) => AllIn(w, cls) && (nonEmpty ==> |w| > 0)
    case AnyChar => |w| == 1 && w[0] != '\n'
  }

  /** `ws` is, token by token, a text the pattern `toks` can match. */
  ghost predicate SpellsAll(toks: seq<Token>, ws: seq<string>) {
    |ws| == |toks| && forall k :: 0 <= k < |toks| ==> SpellsNth(toks, ws, k)
  }

  /** The `k`-th word spells the `k`-th token. */
  ghost predicate SpellsNth(toks: seq<Token>, ws: seq<string>, k: int) {
    0 <= k < |toks| && k < |ws| && Spells(toks[k], ws[k])
  }

  function Concat(ws: seq<string>): string {
    if |ws| == 0 then "" else ws[0] + Concat(ws[1..])
  }

  /** The texts of the `Run` tokens: the groups a pattern whose every class
      repetition is parenthesised captures. */
  function Captures(toks: seq<Token>, ws: seq<string>): seq<string>
    requires |ws| == |toks|
  {
    if |toks| == 0 then []
    else (if toks[0].Run? then [ws[0]] else []) + Captures(toks[1..], ws[1..])
  }

  /** A match of `toks` ending at `e` cannot be extended: when the pattern ends
      with a repetition, the next character is outside its class. */
  ghost predicate Delimited(s: string, e: nat, toks: seq<Token>) {
    |toks| > 0 && toks[|toks| - 1].Run? ==> e == |s| || (e < |s| && !toks[|toks| - 1].cls(s[e]))
  }

  /** Every repetition but the last is followed by a literal that starts with
      a character outside its class, so no backtracking is ever needed. */
  ghost predicate Unambiguous(toks: seq<Token>) {
    forall k :: 0 <= k < |toks| - 1 ==> Guarded(toks, k)
  }

  /** The repetition at `k`, if any, is followed by a literal that starts
      outside its class. */
  ghost predicate Guarded(toks: seq<Token>, k: nat)
    requires k < |toks| - 1
  {
    toks[k].Run? ==> toks[k + 1].Lit? && |toks[k + 1].text| > 0 && !toks[k].cls(toks[k + 1].text[0])
  }

  /** The number of groups a pattern captures. */
  function RunCount(toks: seq<Token>): nat {
    if |toks| == 0 then 0 else (if toks[0].Run? then 1 else 0) + RunCount(toks[1..])
  }

  /** One token at position `i`, repetitions taken greedily. */
  function TokenAt(s: string, i: nat, t: Token): (r: Option<nat>)
    ensures r.Some? ==> i <= r.value <= |s|
  {
    match t
    case Lit(p) => LitAt(s, i, p)
    case Run(cls, nonEmpty) =>
      if i > |s| then None
      else if nonEmpty then PlusAt(s, i, cls)
      else Some(RunEnd(s, i, cls))
    case AnyChar => AnyAt(s, i)
  }

  /** The pattern `toks` matched at position `i`, each repetition greedy:
      the captured groups and the end of the match. */
  function MatchAt(s: string, i: nat, toks: seq<Token>): (r: Option<Hit<seq<string>>>)
    ensures r.Some? ==> i <= r.value.end <= |s|
    ensures r.Some? ==> |r.value.groups| == RunCount(toks)
    ensures r.Some? && |toks| > 0 && toks[0].Lit? ==> i + |toks[0].text| <= r.value.end && OccursAt(s, toks[0].text, i)
    decreases |toks|
  {
    if |toks| == 0 then (if i <= |s| then Some(Hit([], i)) else None)
    else
      var j :- TokenAt(s, i, toks[0]);
      var rest :- MatchAt(s, j, toks[1..]);
      Some(Hit((if toks[0].Run? then [s[i..j]] else []) + rest.groups, rest.end))
  }

  /** Soundness: what the matcher returns is a spelling of the pattern, its
      groups are the repetitions' texts, and it cannot be extended. */
  lemma MatchAtSound(s: string, i: nat, toks: seq<Token>) returns (ws: seq<string>)
    requires MatchAt(s, i, toks).Some?
    ensures SpellsAll(toks, ws)
    ensures s[i..MatchAt(s, i, toks).value.end] == Concat(ws)
    ensures MatchAt(s, i, toks).value.groups == Captures(toks, ws)
    ensures Delimited(s, MatchAt(s, i, toks).value.end, toks)
  {
    ws := Spelling(s, i, toks);
    SpellingSpells(s, i, toks);
    SpellingConcat(s, i, toks);
    SpellingCaptures(s, i, toks);
    SpellingDelimited(s, i, toks);
  }

  /** The texts the matcher's tokens cover, one per token. */
  ghost function Spelling(s: string, i: nat, toks: seq<Token>): (ws: seq<string>)
    requires MatchAt(s, i, toks).Some?
    ensures |ws| == |toks|
    decreases |toks|
  {
    if |toks| == 0 then []
    else
      var j := TokenAt(s, i, toks[0]).value;
      [s[i..j]] + Spelling(s, j, toks[1..])
  }

  lemma {:induction false} SpellingSpells(s: string, i: nat, toks: seq<Token>)
    requires MatchAt(s, i, toks).Some?
    ensures SpellsAll(toks, Spelling(s, i, toks))
    decreases |toks|
  {
    if |toks| > 0 {
      var j := TokenAt(s, i, toks[0]).value;
      SpellingSpells(s, j, toks[1..]);
      TokenSpells(s, i, toks[0]);
      SpellsCons(toks, s[i..j], Spelling(s, j, toks[1..]));
    }
  }

  lemma {:induction false} SpellingConcat(s: string, i: nat, toks: seq<Token>)
    requires MatchAt(s, i, toks).Some?
    ensures s[i..MatchAt(s, i, toks).value.end] == Concat(Spelling(s, i, toks))
    decreases |toks|
  {
    if |toks| > 0 {
      var j := TokenAt(s, i, toks[0]).value;
      var e := MatchAt(s, i, toks).value.end;
      SpellingConcat(s, j, toks[1..]);
      MatchAtCons(s, i, toks, j);
      var ws' := Spelling(s, j, toks[1..]);
      assert ([s[i..j]] + ws')[1..] == ws';
      assert s[i..e] == s[i..j] + s[j..e];
    }
  }

  lemma {:induction false} SpellingCaptures(s: string, i: nat, toks: seq<Token>)
    requires MatchAt(s, i, toks).Some?
    ensures MatchAt(s, i, toks).value.groups == Captures(toks, Spelling(s, i, toks))
    decreases |toks|
  {
    if |toks| > 0 {
      var j := TokenAt(s, i, toks[0]).value;
      SpellingCaptures(s, j, toks[1..]);
      MatchAtCons(s, i, toks, j);
      var ws' := Spelling(s, j, toks[1..]);
      assert ([s[i..j]] + ws')[1..] == ws';
    }
  }

  lemma {:induction false} SpellingDelimited(s: string, i: nat, toks: seq<Token>)
    requires MatchAt(s, i, toks).Some?
    ensures Delimited(s, MatchAt(s, i, toks).value.end, toks)
    decreases |toks|
  {
    if |toks| > 0 {
      var j := TokenAt(s, i, toks[0]).value;
      SpellingDelimited(s, j, toks[1..]);
      MatchAtCons(s, i, toks, j);
      DelimitedCons(s, i, toks, j, MatchAt(s, i, toks).value.end);
    }
  }

  /** What a token matches is one of its spellings. */
  lemma TokenSpells(s: string, i: nat, t: Token)
    requires TokenAt(s, i, t).Some?
    ensures Spells(t, s[i..TokenAt(s, i, t).value])
  {
    var j := TokenAt(s, i, t).value;
    match t
    case Lit(p) =>
    case Run(cls, nonEmpty) =>
      forall k | 0 <= k < j - i ensures cls(s[i..j][k]) {
        assert s[i..j][k] == s[i + k];
      }
    case AnyChar =>
  }

  /** Prefixing a spelling of the rest of a pattern with a spelling of its
      first token spells the whole pattern. */
  lemma SpellsCons(toks: seq<Token>, w: string, ws': seq<string>)
    requires |toks| > 0 && Spells(toks[0], w) && SpellsAll(toks[1..], ws')
    ensures SpellsAll(toks, [w] + ws')
  {
    var ws := [w] + ws';
    assert ws[1..] == ws';
    forall k | 0 <= k < |toks| ensures SpellsNth(toks, ws, k) {
      if k > 0 {
        assert SpellsNth(toks[1..], ws', k - 1);
        assert toks[k] == toks[1..][k - 1] && ws[k] == ws'[k - 1];
      }
    }
  }

  /** A match is delimited when the match of the rest of its pattern is, or,
      when the first token is the last, because a greedy run stops before a
      character outside its class. */
  lemma DelimitedCons(s: string, i: nat, toks: seq<Token>, j: nat, e: nat)
    requires |toks| > 0 && TokenAt(s, i, toks[0]) == Some(j)
    requires |toks| == 1 ==> e == j
    requires Delimited(s, e, toks[1..])
    ensures Delimited(s, e, toks)
  {
    if |toks| > 1 {
      assert toks[1..][|toks[1..]| - 1] == toks[|toks| - 1];
    }
  }

  /** Uniqueness: a spelling of an unambiguous pattern that cannot be extended
      is exactly what the greedy matcher finds, which is also what Python's
      backtracking matcher finds first. */
  lemma MatchAtComplete(s: string, i: nat, toks: seq<Token>, ws: seq<string>)
    requires Unambiguous(toks) && SpellsAll(toks, ws)
    requires i + |Concat(ws)| <= |s| && s[i..i + |Concat(ws)|] == Concat(ws)
    requires Delimited(s, i + |Concat(ws)|, toks)
    ensures MatchAt(s, i, toks) == Some(Hit(Captures(toks, ws), i + |Concat(ws)|))
  {
    CompleteFrom(s, i, toks, ws);
  }

  /** `ws` spells the pattern at `i`, and the spelling cannot be extended. */
  ghost predicate DelimitedSpelling(s: string, i: nat, toks: seq<Token>, ws: seq<string>) {
    && Unambiguous(toks) && SpellsAll(toks, ws)
    && i + |Concat(ws)| <= |s| && s[i..i + |Concat(ws)|] == Concat(ws)
    && Delimited(s, i + |Concat(ws)|, toks)
  }

  lemma {:induction false} CompleteFrom(s: string, i: nat, toks: seq<Token>, ws: seq<string>)
    requires DelimitedSpelling(s, i, toks, ws)
    ensures MatchAt(s, i, toks) == Some(Hit(Captures(toks, ws), i + |Concat(ws)|))
    decreases |toks|
  {
    if |toks| == 0 {
      assert ws == [];
    } else {
      var j := i + |ws[0]|;
      assert MatchAt(s, j, toks[1..]) == Some(Hit(Captures(toks[1..], ws[1..]), j + |Concat(ws[1..])|)) by {
        TailSpelling(s, i, toks, ws);
        CompleteFrom(s, j, toks[1..], ws[1..]);
      }
      CompleteCons(s, i, toks, ws, j);
    }
  }

  /** A delimited spelling whose tail the matcher finds is found whole. */
  lemma CompleteCons(s: string, i: nat, toks: seq<Token>, ws: seq<string>, j: nat)
    requires |toks| > 0 && DelimitedSpelling(s, i, toks, ws) && j == i + |ws[0]|
    requires MatchAt(s, j, toks[1..]) == Some(Hit(Captures(toks[1..], ws[1..]), j + |Concat(ws[1..])|))
    ensures MatchAt(s, i, toks) == Some(Hit(Captures(toks, ws), i + |Concat(ws)|))
  {
    FirstToken(s, i, toks, ws);
    CompleteStep(s, i, toks, ws, j);
  }

  /** The first token matched over its word and the rest of the pattern over
      the remaining words make a match of the whole pattern over all of them. */
  lemma CompleteStep(s: string, i: nat, toks: seq<Token>, ws: seq<string>, j: nat)
    requires |toks| > 0 && |ws| == |toks| && j == i + |ws[0]| && j <= |s| && s[i..j] == ws[0]
    requires TokenAt(s, i, toks[0]) == Some(j)
    requires MatchAt(s, j, toks[1..]) == Some(Hit(Captures(toks[1..], ws[1..]), j + |Concat(ws[1..])|))
    ensures MatchAt(s, i, toks) == Some(Hit(Captures(toks, ws), i + |Concat(ws)|))
  {
    MatchAtCons(s, i, toks, j);
    var rest := MatchAt(s, j, toks[1..]).value;
    assert rest.end == i + |Concat(ws)| by {
      assert Concat(ws) == ws[0] + Concat(ws[1..]);
    }
    var groups := (if toks[0].Run? then [s[i..j]] else []) + rest.groups;
    assert groups == Captures(toks, ws);
    assert MatchAt(s, i, toks) == Some(Hit(groups, rest.end));
  }

  /** One step of the matcher: the first token matched up to `j`, the rest
      of the pattern from there. */
  lemma MatchAtCons(s: string, i: nat, toks: seq<Token>, j: nat)
    requires |toks| > 0 && TokenAt(s, i, toks[0]) == Some(j) && MatchAt(s, j, toks[1..]).Some?
    ensures var rest := MatchAt(s, j, toks[1..]).value;
            MatchAt(s, i, toks) == Some(Hit((if toks[0].Run? then [s[i..j]] else []) + rest.groups, rest.end))
  {
  }

  /** The first token of a delimited spelling is matched greedily to its end. */
  lemma FirstToken(s: string, i: nat, toks: seq<Token>, ws: seq<string>)
    requires |toks| > 0 && DelimitedSpelling(s, i, toks, ws)
    ensures TokenAt(s, i, toks[0]) == Some(i + |ws[0]|)
    ensures s[i..i + |ws[0]|] == ws[0]
    ensures s[i + |ws[0]|..i + |Concat(ws)|] == Concat(ws[1..])
  {
    PeelFirst(s, i, ws);
    FirstTokenAt(s, i, toks, ws);
  }

  /** The first token of a delimited spelling matches exactly its word. */
  lemma FirstTokenAt(s: string, i: nat, toks: seq<Token>, ws: seq<string>)
    requires |toks| > 0 && DelimitedSpelling(s, i, toks, ws)
    ensures TokenAt(s, i, toks[0]) == Some(i + |ws[0]|)
  {
    PeelFirst(s, i, ws);
    FirstFollowed(s, i, toks, ws);
    TokenSpelled(s, i, i + |Concat(ws)|, toks[0], ws[0], Concat(ws[1..]), |toks| == 1);
  }

  /** The slice spelling `Concat(ws)` splits after the first word. */
  lemma PeelFirst(s: string, i: nat, ws: seq<string>)
    requires |ws| > 0 && i + |Concat(ws)| <= |s| && s[i..i + |Concat(ws)|] == Concat(ws)
    ensures i + |ws[0]| <= i + |Concat(ws)|
    ensures s[i..i + |ws[0]|] == ws[0]
    ensures s[i + |ws[0]|..i + |Concat(ws)|] == Concat(ws[1..])
  {
    assert Concat(ws) == ws[0] + Concat(ws[1..]);
    Peel(s, i, i + |Concat(ws)|, ws[0], Concat(ws[1..]));
  }

  /** What follows the first token of a delimited spelling: the end of the
      match when it is the only token, text outside its class when it is a
      repetition followed by more tokens. */
  lemma FirstFollowed(s: string, i: nat, toks: seq<Token>, ws: seq<string>)
    requires |toks| > 0 && DelimitedSpelling(s, i, toks, ws)
    ensures Spells(toks[0], ws[0])
    ensures var rest, e := Concat(ws[1..]), i + |Concat(ws)|;
      && (toks[0].Run? && |toks| == 1 ==> rest == [] && (e == |s| || (e < |s| && !toks[0].cls(s[e]))))
      && (toks[0].Run? && |toks| != 1 ==> |rest| > 0 && !toks[0].cls(rest[0]))
  {
    assert SpellsNth(toks, ws, 0);
    if |toks| == 1 {
      assert ws[1..] == [];
      assert toks[|toks| - 1] == toks[0];
    } else if toks[0].Run? {
      RunFollowed(toks, ws);
    }
  }

  /** In an unambiguous spelling, a repetition that is not last is followed
      by text that starts outside its class. */
  lemma RunFollowed(toks: seq<Token>, ws: seq<string>)
    requires |toks| > 1 && toks[0].Run?
    requires Unambiguous(toks) && SpellsAll(toks, ws)
    ensures |Concat(ws[1..])| > 0 && !toks[0].cls(Concat(ws[1..])[0])
  {
    assert Guarded(toks, 0) && SpellsNth(toks, ws, 1);
    assert ws[1..][0] == ws[1];
    assert Concat(ws[1..]) == ws[1] + Concat(ws[2..]) by {
      assert ws[1..][1..] == ws[2..];
    }
  }

  /** A token spelled by `w`, followed either by the end of the match (when
      it is the last token) or, for a repetition, by text starting outside
      its class, is matched exactly over `w`. */
  lemma TokenSpelled(s: string, i: nat, e: nat, t: Token, w: string, rest: string, last: bool)
    requires i + |w| <= e <= |s| && s[i..i + |w|] == w && s[i + |w|..e] == rest && Spells(t, w)
    requires t.Run? && last ==> rest == [] && (e == |s| || (e < |s| && !t.cls(s[e])))
    requires t.Run? && !last ==> |rest| > 0 && !t.cls(rest[0])
    ensures TokenAt(s, i, t) == Some(i + |w|)
  {
    match t
    case Lit(p) =>
    case Run(cls, nonEmpty) =>
      RunToken(s, i, e, w, rest, cls, last);
      if nonEmpty {
        assert s[i] == w[0];
      }
    case AnyChar =>
      assert s[i] == w[0];
  }

  /** A repetition spelled by `w`, followed either by the end of the match
      (when it is the last token) or by text starting outside its class. */
  lemma RunToken(s: string, i: nat, e: nat, w: string, rest: string, cls: char -> bool, last: bool)
    requires i + |w| <= e <= |s| && s[i..i + |w|] == w && s[i + |w|..e] == rest && AllIn(w, cls)
    requires last ==> rest == [] && (e == |s| || (e < |s| && !cls(s[e])))
    requires !last ==> |rest| > 0 && !cls(rest[0])
    ensures RunEnd(s, i, cls) == i + |w|
  {
    if !last {
      assert s[i + |w|] == rest[0];
    }
    RunEndAfter(s, i, w, cls);
  }

  /** Splitting a slice that spells `a + b`. */
  lemma Peel(s: string, i: nat, e: nat, a: string, b: string)
    requires i <= e <= |s| && s[i..e] == a + b
    ensures s[i..i + |a|] == a && s[i + |a|..e] == b
  {
    assert s[i..i + |a|] == s[i..e][..|a|];
    assert s[i + |a|..e] == s[i..e][|a|..];
  }

  /** What is left of a delimited spelling after its first token is a
      delimited spelling of the rest of the pattern. */
  lemma TailSpelling(s: string, i: nat, toks: seq<Token>, ws: seq<string>)
    requires |toks| > 0 && DelimitedSpelling(s, i, toks, ws)
    ensures DelimitedSpelling(s, i + |ws[0]|, toks[1..], ws[1..])
  {
    PeelFirst(s, i, ws);
    UnambiguousTail(toks);
    SpellsAllTail(toks, ws);
    if |toks| > 1 {
      assert toks[1..][|toks[1..]| - 1] == toks[|toks| - 1];
    }
  }

  lemma UnambiguousTail(toks: seq<Token>)
    requires |toks| > 0 && Unambiguous(toks)
    ensures Unambiguous(toks[1..])
  {
    forall k | 0 <= k < |toks[1..]| - 1 ensures Guarded(toks[1..], k) {
      assert Guarded(toks, k + 1);
      assert toks[1..][k] == toks[k + 1] && toks[1..][k + 1] == toks[k + 2];
    }
  }

  lemma SpellsAllTail(toks: seq<Token>, ws: seq<string>)
    requires |toks| > 0 && SpellsAll(toks, ws)
    ensures SpellsAll(toks[1..], ws[1..])
  {
    forall k | 0 <= k < |toks[1..]| ensures SpellsNth(toks[1..], ws[1..], k) {
      assert SpellsNth(toks, ws, k + 1);
      assert toks[1..][k] == toks[k + 1] && ws[1..][k] == ws[k + 1];
    }
  }

  /** `at` describes the matches of a pattern in `s`: each match is non-empty
      and lies inside `s`. */
  ghost predicate WellFormed<T>(s: string, at: nat -> Option<Hit<T>>) {
    forall k: nat :: at(k).Some? ==> k < at(k).value.end <= |s|
  }

  /** No match of the pattern starts in `[from, |s|]`. */
  ghost predicate NoHitFrom<T>(s: string, at: nat -> Option<Hit<T>>, from: nat) {
    forall k: nat :: from <= k <= |s| ==> at(k).None?
  }

  /** `for match in re.finditer(...): result = match.groups()`: scanning from
      `pos`, a match is taken at the first position where one starts and the
      scan resumes after it; the groups of the last match taken are returned,
      `last` if there is none. */
  function LastMatch<T>(s: string, at: nat -> Option<Hit<T>>, pos: nat, last: Option<T>): Option<T>
    requires WellFormed(s, at)
    decreases |s| + 1 - pos
  {
    if pos > |s| then last
    else match at(pos)
      case None => LastMatch(s, at, pos + 1, last)
      case Some(h) => LastMatch(s, at, h.end, Some(h.groups))
  }

  /** The scan of `LastMatch` started at `pos` looks at position `k`: it
      moves one position on where no match starts, and to the end of a match
      where one does, so a position inside a match it took is never looked
      at. */
  ghost predicate Reached<T>(s: string, at: nat -> Option<Hit<T>>, pos: nat, k: nat)
    decreases k - pos
  {
    && pos <= k <= |s|
    && (pos == k || match at(pos)
                    case None => Reached(s, at, pos + 1, k)
                    case Some(h) => pos < h.end && Reached(s, at, h.end, k))
  }

  /** The scan keeps `last` when no match starts from `pos` on; otherwise it
      keeps the groups of a match the scan reaches and after which no further
      match starts. */
  lemma {:induction false} LastMatchSpec<T>(s: string, at: nat -> Option<Hit<T>>, pos: nat, last: Option<T>)
    requires WellFormed(s, at)
    ensures NoHitFrom(s, at, pos) ==> LastMatch(s, at, pos, last) == last
    ensures !NoHitFrom(s, at, pos) ==>
      exists k: nat :: Reached(s, at, pos, k) && at(k).Some? && LastMatch(s, at, pos, last) == Some(at(k).value.groups)
                       && NoHitFrom(s, at, at(k).value.end)
    decreases |s| + 1 - pos
  {
    if pos <= |s| {
      match at(pos)
      case None =>
        LastMatchSpec(s, at, pos + 1, last);
        if !NoHitFrom(s, at, pos) {
          assert !NoHitFrom(s, at, pos + 1);
          var k: nat :| Reached(s, at, pos + 1, k) && at(k).Some?
                        && LastMatch(s, at, pos + 1, last) == Some(at(k).value.groups)
                        && NoHitFrom(s, at, at(k).value.end);
          assert Reached(s, at, pos, k);
        }
      case Some(h) =>
        LastMatchSpec(s, at, h.end, Some(h.groups));
        if !NoHitFrom(s, at, h.end) {
          var k: nat :| Reached(s, at, h.end, k) && at(k).Some?
                        && LastMatch(s, at, h.end, Some(h.groups)) == Some(at(k).value.groups)
                        && NoHitFrom(s, at, at(k).value.end);
          assert Reached(s, at, pos, k);
        } else {
          assert Reached(s, at, pos, pos);
        }
    }
  }

  /** Two positions the scan reaches never lie inside one match: the scan
      resumes at or after the end of every match it reaches. */
  lemma {:induction false} ReachedResumes<T>(s: string, at: nat -> Option<Hit<T>>, pos: nat, k1: nat, k2: nat)
    requires Reached(s, at, pos, k1) && Reached(s, at, pos, k2) && k1 < k2 && at(k1).Some?
    ensures at(k1).value.end <= k2
    decreases k1 - pos
  {
    if pos < k1 {
      match at(pos)
      case None =>
        ReachedResumes(s, at, pos + 1, k1, k2);
      case Some(h) =>
        ReachedResumes(s, at, h.end, k1, k2);
    } else {
      var h := at(pos).value;
      assert Reached(s, at, h.end, k2);
    }
  }

  /** The match `LastMatchSpec` names is the only one the scan reaches with no
      match after it, so the groups kept are those of one fixed match. */
  lemma LastReachedUnique<T>(s: string, at: nat -> Option<Hit<T>>, pos: nat, k1: nat, k2: nat)
    requires Reached(s, at, pos, k1) && at(k1).Some? && NoHitFrom(s, at, at(k1).value.end)
    requires Reached(s, at, pos, k2) && at(k2).Some? && NoHitFrom(s, at, at(k2).value.end)
    ensures k1 == k2
  {
    if k1 < k2 {
      ReachedResumes(s, at, pos, k1, k2);
    } else if k2 < k1 {
      ReachedResumes(s, at, pos, k2, k1);
    }
  }

  /** A property every match's groups and the initial `last` have holds of
      what the scan keeps. */
  lemma {:induction false} LastMatchKeeps<T>(s: string, at: nat -> Option<Hit<T>>, pos: nat, last: Option<T>, ok: T -> bool)
    requires WellFormed(s, at)
    requires forall k: nat :: at(k).Some? ==> ok(at(k).value.groups)
    requires last.Some? ==> ok(last.value)
    ensures LastMatch(s, at, pos, last).Some? ==> ok(LastMatch(s, at, pos, last).value)
    decreases |s| + 1 - pos
  {
    if pos <= |s| {
      match at(pos)
      case None =>
        LastMatchKeeps(s, at, pos + 1, last, ok);
      case Some(h) =>
        LastMatchKeeps(s, at, h.end, Some(h.groups), ok);
    }
  }

  /** Positions where nothing matches are skipped, and a match is taken
      whatever was found before it. */
  lemma {:induction false} LastMatchSkip<T>(s: string, at: nat -> Option<Hit<T>>, pos: nat, k: nat, last: Option<T>)
    requires WellFormed(s, at)
    requires pos <= k <= |s| && at(k).Some?
    requires forall j: nat :: pos <= j < k ==> at(j).None?
    ensures LastMatch(s, at, pos, last) == LastMatch(s, at, at(k).value.end, Some(at(k).value.groups))
    decreases k - pos
  {
    if pos < k {
      assert at(pos).None?;
      assert LastMatch(s, at, pos, last) == LastMatch(s, at, pos + 1, last);
      LastMatchSkip(s, at, pos + 1, k, last);
    } else {
      var h := at(pos).value;
      assert LastMatch(s, at, pos, last) == LastMatch(s, at, h.end, Some(h.groups));
    }
  }

  /** One step of `Concat` and `Captures` at index `k`. */
  lemma Unfold(toks: seq<Token>, ws: seq<string>, k: nat)
    requires |ws| == |toks| && k < |ws|
    ensures Concat(ws[k..]) == ws[k] + Concat(ws[k + 1..])
    ensures Captures(toks[k..], ws[k..])
            == (if toks[k].Run? then [ws[k]] else []) + Captures(toks[k + 1..], ws[k + 1..])
  {
    assert ws[k..][1..] == ws[k + 1..];
    assert toks[k..][1..] == toks[k + 1..];
  }
}
