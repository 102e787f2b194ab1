/** The Vivado log classifier of the FPGA build tools: one log line becomes a
    tagged message record, and a log becomes seven buckets of records.

    Each of the parser's regular expressions is a token pattern matched by
    `Regex.MatchAt`; `Regex.LastMatch` keeps the groups of the last match,
    as the parser's `for match in re.finditer(...)` loops do. */
module VivadoLog {
  import opened Wrappers
  import opened Strings
  import opened Regex

  /** The seven message types, i.e. the seven bucket keys. */
  datatype Kind = Warning | Error | Info | System | NoneKind | Command | Phase {
    /** The type string the parser stores under "type". */
    function Name(): string {
      match this
      case Warning => "warning"
      case Error => "error"
      case Info => "info"
      case System => "system"
      case NoneKind => "none"
      case Command => "command"
      case Phase => "phase"
    }
  }

  const AllKinds: set<Kind> := {Warning, Error, Info, System, NoneKind, Command, Phase}

  /** A parsed log line. `StepMsg` and `PhaseMsg` both have type "phase";
      `TaggedMsg` covers the info/warning/error records and the default record. */
  datatype Message =
    | CommandMsg(body: string)
    | StepMsg(body: string, checksum: string)
    | PhaseMsg(number: string, body: string, checksum: string)
    | SystemMsg(cpu: string, elapsed: string, peak: string, gain: string,
                freePhysical: string, freeVirtual: string)
    | TaggedMsg(kind: Kind, code: string, body: string)
  {
    function Type(): Kind {
      match this
      case CommandMsg(_) => Command
      case StepMsg(_, _) => Phase
      case PhaseMsg(_, _, _) => Phase
      case SystemMsg(_, _, _, _, _, _) => System
      case TaggedMsg(k, _, _) => k
    }
  }

  /** `{"type": "none", "code": "", "body": ""}`. */
  const DefaultMessage := TaggedMsg(NoneKind, "", "")

  // Character classes of the three patterns.
  predicate TimeChar(c: char) { IsDigit(c) || c == ':' }
  predicate AmountChar(c: char) { IsDigit(c) || c == ':' || c == '.' }
  predicate NumberChar(c: char) { IsDigit(c) || c == '.' }
  predicate AlnumChar(c: char) { ('a' <= c <= 'z') || ('A' <= c <= 'Z') || IsDigit(c) }
  predicate CodeChar(c: char) { AlnumChar(c) || c == '-' || c == ' ' }

  /** The resource-usage pattern `cpu = ([0-9:]+) ; elapsed = ([0-9:]+) . Memory \(MB\): peak = ([0-9:.]+) ; gain = ...`. */
  const SystemPattern: seq<Token> := [
    Lit("cpu = "), Run(TimeChar, true), Lit(" ; elapsed = "), Run(TimeChar, true),
    Lit(" "), AnyChar, Lit(" Memory (MB): peak = "), Run(AmountChar, true),
    Lit(" ; gain = "), Run(AmountChar, true), Lit(" ; free physical = "), Run(AmountChar, true),
    Lit(" ; free virtual = "), Run(AmountChar, true)]

  /** The part of the phase pattern before its backtracking `(.+)`: `Phase ([0-9.]+) `. */
  const PhaseHead: seq<Token> := [Lit("Phase "), Run(NumberChar, true), Lit(" ")]

  /** The part of the phase pattern after `(.+)`: `\| Checksum: ([a-zA-Z0-9]+)`. */
  const PhaseTail: seq<Token> := [Lit("| Checksum: "), Run(AlnumChar, true)]

  /** The four alternatives of `(WARNING|ERROR|INFO|CRITICAL WARNING)`. */
  datatype Severity = SevWarning | SevError | SevInfo | SevCriticalWarning {
    function Text(): string {
      match this
      case SevWarning => "WARNING"
      case SevError => "ERROR"
      case SevInfo => "INFO"
      case SevCriticalWarning => "CRITICAL WARNING"
    }

    /** `groups[0].lower()`, with "critical warning" folded into warning. */
    function Kind(): Kind {
      match this
      case SevWarning => Warning
      case SevError => Error
      case SevInfo => Info
      case SevCriticalWarning => Warning
    }
  }

  /** The tagged-message pattern after its severity: `: \[([A-Za-z\-0-9 ]*)] (.*)`. */
  const TagTail: seq<Token> := [Lit(": ["), Run(CodeChar, false), Lit("] "), Run(NotNewline, false)]

  function TagPattern(v: Severity): seq<Token> {
    [Lit(v.Text())] + TagTail
  }

  lemma PatternGroupCounts()
    ensures RunCount(SystemPattern) == 6 && RunCount(PhaseHead) == 1 && RunCount(PhaseTail) == 1
    ensures forall v: Severity :: RunCount(TagPattern(v)) == 2
  {
    SystemGroupCount();
    PhaseGroupCounts();
    forall v: Severity ensures RunCount(TagPattern(v)) == 2 {
      TagGroupCount(v);
    }
  }

  lemma SystemGroupCount()
    ensures RunCount(SystemPattern) == 6
  {
    assert RunsFrom(SystemPattern, 14) == 0;
    assert RunsFrom(SystemPattern, 13) == 1;
    assert RunsFrom(SystemPattern, 12) == 1;
    assert RunsFrom(SystemPattern, 11) == 2;
    assert RunsFrom(SystemPattern, 10) == 2;
    assert RunsFrom(SystemPattern, 9) == 3;
    assert RunsFrom(SystemPattern, 8) == 3;
    assert RunsFrom(SystemPattern, 7) == 4;
    assert RunsFrom(SystemPattern, 6) == 4;
    assert RunsFrom(SystemPattern, 5) == 4;
    assert RunsFrom(SystemPattern, 4) == 4;
    assert RunsFrom(SystemPattern, 3) == 5;
    assert RunsFrom(SystemPattern, 2) == 5;
    assert RunsFrom(SystemPattern, 1) == 6;
    assert RunsFrom(SystemPattern, 0) == 6;
    CountFrom(SystemPattern, 0);
  }

  lemma PhaseGroupCounts()
    ensures RunCount(PhaseHead) == 1 && RunCount(PhaseTail) == 1
  {
    assert RunsFrom(PhaseHead, 3) == 0 && RunsFrom(PhaseHead, 2) == 0;
    assert RunsFrom(PhaseHead, 1) == 1 && RunsFrom(PhaseHead, 0) == 1;
    CountFrom(PhaseHead, 0);
    assert RunsFrom(PhaseTail, 2) == 0 && RunsFrom(PhaseTail, 1) == 1 && RunsFrom(PhaseTail, 0) == 1;
    CountFrom(PhaseTail, 0);
  }

  lemma TagGroupCount(v: Severity)
    ensures RunCount(TagPattern(v)) == 2
  {
    assert RunsFrom(TagPattern(v), 5) == 0;
    assert RunsFrom(TagPattern(v), 4) == 1;
    assert RunsFrom(TagPattern(v), 3) == 1;
    assert RunsFrom(TagPattern(v), 2) == 2;
    assert RunsFrom(TagPattern(v), 1) == 2;
    assert RunsFrom(TagPattern(v), 0) == 2;
    CountFrom(TagPattern(v), 0);
  }

  /** The groups of the suffix of a pattern from token `k`, counted by index. */
  function RunsFrom(toks: seq<Token>, k: nat): nat
    decreases |toks| - k
  {
    if k >= |toks| then 0 else (if toks[k].Run? then 1 else 0) + RunsFrom(toks, k + 1)
  }

  lemma {:induction false} CountFrom(toks: seq<Token>, k: nat)
    requires k <= |toks|
    ensures RunCount(toks[k..]) == RunsFrom(toks, k)
    decreases |toks| - k
  {
    if k < |toks| {
      assert toks[k..][1..] == toks[k + 1..];
      CountFrom(toks, k + 1);
    }
  }

  lemma PatternsUnambiguous()
    ensures Unambiguous(SystemPattern) && Unambiguous(PhaseHead) && Unambiguous(PhaseTail)
    ensures forall v: Severity :: Unambiguous(TagPattern(v))
  {
  }

  /** The matches of a token pattern that starts with a non-empty literal. */
  function Matches(line: string, toks: seq<Token>): (at: nat -> Option<Hit<seq<string>>>)
    requires |toks| > 0 && toks[0].Lit? && |toks[0].text| > 0
    ensures WellFormed(line, at)
    ensures forall k: nat :: at(k) == MatchAt(line, k, toks)
  {
    (k: nat) => MatchAt(line, k, toks)
  }

  /** The largest `m` in `(lo, hi]` where `PhaseTail` matches: the point where
      the greedy `(.+)` of the phase pattern stops after backtracking. */
  function LastTailStart(s: string, lo: nat, hi: nat): (r: Option<nat>)
    ensures r.Some? ==> lo < r.value <= hi && MatchAt(s, r.value, PhaseTail).Some?
    ensures forall j :: lo < j <= hi && (r.None? || r.value < j) ==> MatchAt(s, j, PhaseTail).None?
    decreases hi
  {
    if hi <= lo then None
    else if MatchAt(s, hi, PhaseTail).Some? then Some(hi)
    else LastTailStart(s, lo, hi - 1)
  }

  /** The phase pattern `Phase ([0-9.]+) (.+)\| Checksum: ([a-zA-Z0-9]+)` at
      position `i`: groups number, body and checksum. */
  function PhaseAt(s: string, i: nat): (r: Option<Hit<seq<string>>>)
    ensures r.Some? ==> i < r.value.end <= |s| && |r.value.groups| == 3
  {
    var head :- MatchAt(s, i, PhaseHead);
    var c := head.end;
    var m :- LastTailStart(s, c, LineEnd(s, c));
    var tail := MatchAt(s, m, PhaseTail).value;
    Some(Hit([head.groups[0], s[c..m], tail.groups[0]], tail.end))
  }

  function PhaseMatches(line: string): (at: nat -> Option<Hit<seq<string>>>)
    ensures WellFormed(line, at)
    ensures forall k: nat :: at(k) == PhaseAt(line, k)
  {
    (k: nat) => PhaseAt(line, k)
  }

  /** A tagged message found in a line: the severity tag and groups 2 and 3. */
  datatype Tag = Tag(severity: Severity, code: string, body: string)

  /** The tagged-message pattern at position `i`; the alternatives are tried in
      the order the pattern lists them. */
  function TagAt(s: string, i: nat): (r: Option<Hit<Tag>>)
    ensures r.Some? ==> i < r.value.end <= |s|
  {
    FirstTag(s, i, [SevWarning, SevError, SevInfo, SevCriticalWarning])
  }

  function FirstTag(s: string, i: nat, alts: seq<Severity>): (r: Option<Hit<Tag>>)
    ensures r.Some? ==> i < r.value.end <= |s|
    ensures r.Some? ==>
      var t := r.value.groups;
      t.severity in alts && MatchAt(s, i, TagPattern(t.severity)) == Some(Hit([t.code, t.body], r.value.end))
  {
    PatternGroupCounts();
    if |alts| == 0 then None
    else match MatchAt(s, i, TagPattern(alts[0]))
      case Some(h) =>
        assert h.groups == [h.groups[0], h.groups[1]];
        Some(Hit(Tag(alts[0], h.groups[0], h.groups[1]), h.end))
      case None => FirstTag(s, i, alts[1..])
  }

  function TagMatches(line: string): (at: nat -> Option<Hit<Tag>>)
    ensures WellFormed(line, at)
    ensures forall k: nat :: at(k) == TagAt(line, k)
  {
    (k: nat) => TagAt(line, k)
  }

  /** `parse_message_system`: the six fields of the last resource-usage match,
      or all empty when there is none. */
  function ParseSystem(line: string): (m: Message)
    ensures m.SystemMsg?
  {
    var at := Matches(line, SystemPattern);
    PatternGroupCounts();
    LastMatchKeeps(line, at, 0, None, (g: seq<string>) => |g| == 6);
    match LastMatch(line, at, 0, None)
    case None => SystemMsg("", "", "", "", "", "")
    case Some(g) => SystemMsg(g[0], g[1], g[2], g[3], g[4], g[5])
  }

  /** The system fields are the groups of the match the left-to-right scan
      reaches after which no further match starts, or all empty when nothing
      matches. */
  lemma ParseSystemLast(line: string)
    ensures var m := ParseSystem(line);
      && (NoHitFrom(line, Matches(line, SystemPattern), 0) ==> m == SystemMsg("", "", "", "", "", ""))
      && (!NoHitFrom(line, Matches(line, SystemPattern), 0) ==>
            exists k: nat :: Reached(line, Matches(line, SystemPattern), 0, k) && MatchAt(line, k, SystemPattern).Some?
              && MatchAt(line, k, SystemPattern).value.groups
                 == [m.cpu, m.elapsed, m.peak, m.gain, m.freePhysical, m.freeVirtual]
              && NoHitFrom(line, Matches(line, SystemPattern), MatchAt(line, k, SystemPattern).value.end))
  {
    var at := Matches(line, SystemPattern);
    PatternGroupCounts();
    LastMatchSpec(line, at, 0, None);
    if !NoHitFrom(line, at, 0) {
      var m := ParseSystem(line);
      var k: nat :| Reached(line, at, 0, k) && at(k).Some? && LastMatch(line, at, 0, None) == Some(at(k).value.groups)
                    && NoHitFrom(line, at, at(k).value.end);
      var g := at(k).value.groups;
      assert m == SystemMsg(g[0], g[1], g[2], g[3], g[4], g[5]);
      SixFields(g);
    }
  }

  lemma SixFields(g: seq<string>)
    requires |g| == 6
    ensures g == [g[0], g[1], g[2], g[3], g[4], g[5]]
  {
  }

  /** `parse_message_phase`: tabs become spaces, then the right-stripped groups
      of the last phase match, or all empty when there is none. */
  function ParsePhase(line: string): (m: Message)
    ensures m.PhaseMsg?
  {
    var t := ReplaceChar(line, '\t', ' ');
    LastMatchKeeps(t, PhaseMatches(t), 0, None, (g: seq<string>) => |g| == 3);
    match LastMatch(t, PhaseMatches(t), 0, None)
    case None => PhaseMsg("", "", "")
    case Some(g) => PhaseMsg(Rstrip(g[0]), Rstrip(g[1]), Rstrip(g[2]))
  }

  /** Number, body and checksum are the right-stripped groups of the phase
      match the left-to-right scan reaches after which no further match
      starts, in the line with tabs turned into spaces, or all empty when
      nothing matches. A match starting inside one the scan took is never
      reached, so it cannot be the one reported. */
  lemma ParsePhaseLast(line: string)
    ensures var m, t := ParsePhase(line), ReplaceChar(line, '\t', ' ');
      && (NoHitFrom(t, PhaseMatches(t), 0) ==> m == PhaseMsg("", "", ""))
      && (!NoHitFrom(t, PhaseMatches(t), 0) ==>
            exists k: nat :: Reached(t, PhaseMatches(t), 0, k) && PhaseAt(t, k).Some?
              && m == PhaseMsg(Rstrip(PhaseAt(t, k).value.groups[0]), Rstrip(PhaseAt(t, k).value.groups[1]),
                               Rstrip(PhaseAt(t, k).value.groups[2]))
              && NoHitFrom(t, PhaseMatches(t), PhaseAt(t, k).value.end))
  {
    var t := ReplaceChar(line, '\t', ' ');
    LastMatchSpec(t, PhaseMatches(t), 0, None);
  }

  /** `parse_message_info`: the severity, code and body of the last tagged
      message found anywhere in the line, unstripped; the default record when
      there is none. */
  function ParseInfo(line: string): (m: Message)
    ensures m.TaggedMsg? && m.kind in {Warning, Error, Info, NoneKind}
  {
    match LastMatch(line, TagMatches(line), 0, None)
    case None => DefaultMessage
    case Some(t) => TagMessage(t)
  }

  /** The tagged record comes from the tag match the left-to-right scan
      reaches after which no further match starts, or is the default record
      when nothing matches. */
  lemma ParseInfoLast(line: string)
    ensures var m := ParseInfo(line);
      && (NoHitFrom(line, TagMatches(line), 0) ==> m == DefaultMessage)
      && (!NoHitFrom(line, TagMatches(line), 0) ==>
            exists k: nat :: Reached(line, TagMatches(line), 0, k) && TagAt(line, k).Some?
              && m == TagMessage(TagAt(line, k).value.groups)
              && NoHitFrom(line, TagMatches(line), TagAt(line, k).value.end))
  {
    LastMatchSpec(line, TagMatches(line), 0, None);
  }

  /** The record a tagged message becomes: its kind from the severity, code and
      body as captured. */
  function TagMessage(t: Tag): Message {
    TaggedMsg(t.severity.Kind(), t.code, t.body)
  }

  /** `line[0] == "#" and line[1] == " " and line[2].islower()`. */
  predicate IsCommandLine(line: string) {
    |line| >= 3 && line[0] == '#' && line[1] == ' ' && IsLower(line[2])
  }

  /** `check_message_command` on a non-empty line, `None` where Python raises
      `IndexError`. */
  function CheckCommand(line: string): (r: Option<bool>)
    requires line != ""
    ensures r.None? <==> line == "#" || line == "# "
    ensures r == Some(true) <==> IsCommandLine(line)
  {
    if line[0] != '#' then Some(false)
    else if |line| < 2 then None
    else if line[1] != ' ' then Some(false)
    else if |line| < 3 then None
    else Some(IsLower(line[2]))
  }

  /** `get_message`: the checks in their fixed order, and the default record
      for the empty line and for any exception. */
  function Classify(line: string): (m: Message)
  {
    if line == "" then DefaultMessage
    else match CheckCommand(line)
      case None => DefaultMessage
      case Some(true) => CommandMsg(Rstrip(line[2..]))
      case Some(false) =>
        if StartsWith(line, "Starting") then StepMsg("", "")
        else if StartsWith(line, "Time (s):") then ParseSystem(line)
        else if Find(line, "Checksum") && StartsWith(line, "Phase ") then ParsePhase(line)
        else ParseInfo(line)
  }

  // ---------------------------------------------------------------------------
  // The classification order

  /** The empty line and the lines on which the command check raises get the
      default record. */
  lemma ClassifyDefault(line: string)
    requires line == "" || line == "#" || line == "# "
    ensures Classify(line) == DefaultMessage
  {
  }

  /** A line is a command exactly when its first three characters say so; the
      body is the rest of the line right-stripped. */
  lemma ClassifyCommand(line: string)
    ensures Classify(line).CommandMsg? <==> IsCommandLine(line)
    ensures IsCommandLine(line) ==> Classify(line) == CommandMsg(Rstrip(line[2..]))
  {
  }

  /** A "Starting" line is a phase record whose body and checksum are always
      empty. */
  lemma ClassifyStep(line: string)
    requires StartsWith(line, "Starting")
    ensures Classify(line) == StepMsg("", "")
  {
  }

  /** The system kind is decided by the prefix alone. */
  lemma ClassifySystem(line: string)
    ensures Classify(line).Type() == System <==> StartsWith(line, "Time (s):")
    ensures StartsWith(line, "Time (s):") ==> Classify(line) == ParseSystem(line)
  {
    if StartsWith(line, "Time (s):") {
      assert line[0] == 'T';
    } else {
      assert Classify(line).Type() != System;
    }
  }

  /** The phase kind: a "Starting" line, or a "Phase " line mentioning "Checksum". */
  lemma ClassifyPhase(line: string)
    ensures Classify(line).Type() == Phase
            <==> StartsWith(line, "Starting") || (StartsWith(line, "Phase ") && Contains(line, "Checksum"))
    ensures !StartsWith(line, "Starting") && StartsWith(line, "Phase ") && Contains(line, "Checksum")
            ==> Classify(line) == ParsePhase(line)
  {
    if StartsWith(line, "Starting") {
      assert line[0] == 'S';
    } else if StartsWith(line, "Phase ") {
      assert line[0] == 'P' && !StartsWith(line, "Time (s):");
    }
  }

  /** Every other line goes to the tagged-message search. */
  lemma ClassifyFallback(line: string)
    requires line != "" && line != "#" && line != "# " && !IsCommandLine(line)
    requires !StartsWith(line, "Starting") && !StartsWith(line, "Time (s):")
    requires !(StartsWith(line, "Phase ") && Contains(line, "Checksum"))
    ensures Classify(line) == ParseInfo(line)
  {
  }

  // ---------------------------------------------------------------------------
  // The phase and tagged-message patterns

  /** What the phase matcher returns is a spelling of the phase pattern. */
  lemma PhaseAtSound(s: string, i: nat)
    requires PhaseAt(s, i).Some?
    ensures var h := PhaseAt(s, i).value; var g := h.groups;
      && s[i..h.end] == "Phase " + g[0] + " " + g[1] + "| Checksum: " + g[2]
      && |g[0]| > 0 && AllIn(g[0], NumberChar)
      && |g[1]| > 0 && AllIn(g[1], NotNewline)
      && |g[2]| > 0 && AllIn(g[2], AlnumChar) && (h.end == |s| || !AlnumChar(s[h.end]))
  {
    var c, m, e := PhaseAtParts(s, i);
    var number := PhaseHeadSound(s, i);
    var checksum := PhaseTailSound(s, m);
    var body := s[c..m];
    assert PhaseAt(s, i).value == Hit([number, body, checksum], e);
    JoinPhase(s, i, c, m, e, number, body, checksum);
    BodyOnLine(s, c, m);
  }

  /** The three slices of a phase match put together. */
  lemma JoinPhase(s: string, i: nat, c: nat, m: nat, e: nat, number: string, body: string, checksum: string)
    requires i <= c <= m <= e <= |s|
    requires s[i..c] == "Phase " + number + " " && s[c..m] == body && s[m..e] == "| Checksum: " + checksum
    ensures s[i..e] == "Phase " + number + " " + body + "| Checksum: " + checksum
  {
    SlicesJoin(s, i, c, m, e);
  }

  /** A non-empty stretch that ends at or before the end of its line. */
  lemma BodyOnLine(s: string, c: nat, m: nat)
    requires c <= |s| && c < m <= LineEnd(s, c)
    ensures |s[c..m]| > 0 && AllIn(s[c..m], NotNewline)
  {
    forall k | 0 <= k < m - c ensures NotNewline(s[c..m][k]) {
      assert s[c..m][k] == s[c + k];
    }
  }

  /** The positions a phase match passes through: after the head, at the
      checksum marker, and at the end. */
  lemma PhaseAtParts(s: string, i: nat) returns (c: nat, m: nat, e: nat)
    requires PhaseAt(s, i).Some?
    ensures MatchAt(s, i, PhaseHead).Some? && c == MatchAt(s, i, PhaseHead).value.end
    ensures c < m <= LineEnd(s, c) && MatchAt(s, m, PhaseTail).Some? && e == MatchAt(s, m, PhaseTail).value.end
    ensures PhaseAt(s, i).value
            == Hit([MatchAt(s, i, PhaseHead).value.groups[0], s[c..m], MatchAt(s, m, PhaseTail).value.groups[0]], e)
  {
    PatternGroupCounts();
    c := MatchAt(s, i, PhaseHead).value.end;
    m := LastTailStart(s, c, LineEnd(s, c)).value;
    e := MatchAt(s, m, PhaseTail).value.end;
  }

  lemma SlicesJoin(s: string, i: nat, c: nat, m: nat, e: nat)
    requires i <= c <= m <= e <= |s|
    ensures s[i..e] == s[i..c] + s[c..m] + s[m..e]
  {
  }

  /** The body of a phase match is as long as it can be: no later
      `| Checksum: <alnum>` on the same line could end it. */
  lemma PhaseBodyLongest(s: string, i: nat)
    requires PhaseAt(s, i).Some?
    ensures var g := PhaseAt(s, i).value.groups; var c := i + 7 + |g[0]|;
      c <= |s| &&
      forall m :: c + |g[1]| < m <= LineEnd(s, c) ==> MatchAt(s, m, PhaseTail).None?
  {
    var c := MatchAt(s, i, PhaseHead).value.end;
    var m := LastTailStart(s, c, LineEnd(s, c)).value;
    var tail := MatchAt(s, m, PhaseTail).value;
    var number := PhaseHeadSound(s, i);
    assert PhaseAt(s, i) == Some(Hit([number, s[c..m], tail.groups[0]], tail.end));
  }

  lemma PhaseHeadSound(s: string, i: nat) returns (number: string)
    requires MatchAt(s, i, PhaseHead).Some?
    ensures var h := MatchAt(s, i, PhaseHead).value;
      h.groups == [number] && s[i..h.end] == "Phase " + number + " "
      && |number| > 0 && AllIn(number, NumberChar) && h.end == i + 7 + |number|
  {
    var ws := MatchAtSound(s, i, PhaseHead);
    Unfold(PhaseHead, ws, 0);
    Unfold(PhaseHead, ws, 1);
    Unfold(PhaseHead, ws, 2);
    assert ws[3..] == [] && PhaseHead[3..] == [];
    number := ws[1];
    assert SpellsNth(PhaseHead, ws, 0) && SpellsNth(PhaseHead, ws, 1) && SpellsNth(PhaseHead, ws, 2);
  }

  lemma PhaseTailSound(s: string, m: nat) returns (checksum: string)
    requires MatchAt(s, m, PhaseTail).Some?
    ensures var h := MatchAt(s, m, PhaseTail).value;
      h.groups == [checksum] && s[m..h.end] == "| Checksum: " + checksum
      && |checksum| > 0 && AllIn(checksum, AlnumChar) && (h.end == |s| || !AlnumChar(s[h.end]))
  {
    var ws := MatchAtSound(s, m, PhaseTail);
    Unfold(PhaseTail, ws, 0);
    Unfold(PhaseTail, ws, 1);
    assert ws[2..] == [] && PhaseTail[2..] == [];
    checksum := ws[1];
    assert SpellsNth(PhaseTail, ws, 0) && SpellsNth(PhaseTail, ws, 1);
  }

  /** What the tagged-message matcher returns is a spelling of the pattern for
      its severity; the body runs to the end of the line. */
  lemma TagAtSound(s: string, i: nat)
    requires TagAt(s, i).Some?
    ensures var h := TagAt(s, i).value; var t := h.groups;
      && s[i..h.end] == t.severity.Text() + ": [" + t.code + "] " + t.body
      && AllIn(t.code, CodeChar) && AllIn(t.body, NotNewline)
      && (h.end == |s| || s[h.end] == '\n')
  {
    var h := TagAt(s, i).value;
    var t := h.groups;
    var toks := TagPattern(t.severity);
    var ws := MatchAtSound(s, i, toks);
    UnfoldTag(toks, ws, t.severity);
    assert SpellsNth(toks, ws, 0) && SpellsNth(toks, ws, 1) && SpellsNth(toks, ws, 2);
    assert SpellsNth(toks, ws, 3) && SpellsNth(toks, ws, 4);
  }

  /** `Concat` and `Captures` of a five-token tagged-message spelling. */
  lemma UnfoldTag(toks: seq<Token>, ws: seq<string>, v: Severity)
    requires toks == TagPattern(v) && |ws| == 5
    ensures Concat(ws) == ws[0] + ws[1] + ws[2] + ws[3] + ws[4]
    ensures Captures(toks, ws) == [ws[2], ws[4]]
  {
    Unfold(toks, ws, 0);
    Unfold(toks, ws, 1);
    Unfold(toks, ws, 2);
    Unfold(toks, ws, 3);
    Unfold(toks, ws, 4);
    assert ws[5..] == [] && toks[5..] == [];
    assert ws[0..] == ws && toks[0..] == toks;
  }

  /** The severity alternatives start with different letters, so at most one
      applies at any position. */
  lemma SeverityFirstLetters(v: Severity, w: Severity)
    requires v != w
    ensures |v.Text()| > 0 && |w.Text()| > 0 && v.Text()[0] != w.Text()[0]
  {
  }

  /** Any spelling of the tagged-message pattern that runs to the end of the
      line is what the matcher finds: the severity is determined and code and
      body are exactly the spelled ones. */
  lemma TagAtComplete(s: string, i: nat, v: Severity, code: string, body: string)
    requires AllIn(code, CodeChar) && AllIn(body, NotNewline)
    requires var text := v.Text() + ": [" + code + "] " + body;
      i + |text| <= |s| && s[i..i + |text|] == text
      && (i + |text| == |s| || s[i + |text|] == '\n')
    ensures TagAt(s, i) == Some(Hit(Tag(v, code, body), i + |v.Text() + ": [" + code + "] " + body|))
  {
    TagSpellingMatches(s, i, v, code, body);
    OnlyTagFound(s, i, v, code, body, i + |v.Text() + ": [" + code + "] " + body|);
  }

  /** Where a severity's text starts and its pattern matches, the matcher
      reports that severity: no other alternative can match there. */
  lemma OnlyTagFound(s: string, i: nat, v: Severity, code: string, body: string, e: nat)
    requires i < |s| && s[i] == v.Text()[0]
    requires MatchAt(s, i, TagPattern(v)) == Some(Hit([code, body], e))
    ensures TagAt(s, i) == Some(Hit(Tag(v, code, body), e))
  {
    OtherSeveritiesFail(s, i, v);
    var alts := [SevWarning, SevError, SevInfo, SevCriticalWarning];
    assert v in alts by { assert v == SevWarning || v == SevError || v == SevInfo || v == SevCriticalWarning; }
    FirstTagFinds(s, i, alts, v, code, body, e);
  }

  /** The pattern of severity `v` matches its spelling, with code and body as
      its groups. */
  lemma TagSpellingMatches(s: string, i: nat, v: Severity, code: string, body: string)
    requires AllIn(code, CodeChar) && AllIn(body, NotNewline)
    requires var text := v.Text() + ": [" + code + "] " + body;
      i + |text| <= |s| && s[i..i + |text|] == text
      && (i + |text| == |s| || s[i + |text|] == '\n')
    ensures i < |s| && s[i] == v.Text()[0]
    ensures MatchAt(s, i, TagPattern(v)) == Some(Hit([code, body], i + |v.Text() + ": [" + code + "] " + body|))
  {
    var text := v.Text() + ": [" + code + "] " + body;
    var ws := [v.Text(), ": [", code, "] ", body];
    UnfoldTag(TagPattern(v), ws, v);
    PatternsUnambiguous();
    assert SpellsAll(TagPattern(v), ws);
    MatchAtComplete(s, i, TagPattern(v), ws);
    assert s[i] == text[0] == v.Text()[0];
  }

  /** No other severity's pattern matches where one severity's text starts. */
  lemma OtherSeveritiesFail(s: string, i: nat, v: Severity)
    requires i < |s| && s[i] == v.Text()[0]
    ensures forall w: Severity :: w != v ==> MatchAt(s, i, TagPattern(w)).None?
  {
    forall w: Severity | w != v ensures MatchAt(s, i, TagPattern(w)).None? {
      SeverityFirstLetters(v, w);
    }
  }

  /** The first alternative that matches is the only one that does. */
  lemma {:induction false} FirstTagFinds(s: string, i: nat, alts: seq<Severity>, v: Severity, code: string, body: string, e: nat)
    requires v in alts && MatchAt(s, i, TagPattern(v)) == Some(Hit([code, body], e))
    requires forall w: Severity :: w != v ==> MatchAt(s, i, TagPattern(w)).None?
    ensures FirstTag(s, i, alts) == Some(Hit(Tag(v, code, body), e))
  {
    if alts[0] != v {
      FirstTagFinds(s, i, alts[1..], v, code, body, e);
    }
  }

  /** A tagged message can only start at a severity letter. */
  lemma TagStartsWithLetter(s: string, i: nat)
    requires TagAt(s, i).Some?
    ensures i < |s| && s[i] in {'W', 'E', 'I', 'C'}
  {
    var v := TagAt(s, i).value.groups.severity;
    assert OccursAt(s, v.Text(), i);
    assert s[i] == v.Text()[0];
  }

  /** On one line of the log (no newline except a trailing one), the body of a
      tagged message swallows the rest of the line, so the FIRST tag on the line
      is the one reported, although the loop keeps the last match. */
  lemma FirstTagOnLineWins(line: string, k: nat)
    requires forall j :: 0 <= j < |line| - 1 ==> line[j] != '\n'
    requires TagAt(line, k).Some? && forall j: nat :: j < k ==> TagAt(line, j).None?
    ensures ParseInfo(line) == TagMessage(TagAt(line, k).value.groups)
  {
    var at := TagMatches(line);
    var h := TagAt(line, k).value;
    LastMatchSkip(line, at, 0, k, None);
    NothingAfterTag(line, k);
    LastMatchSpec(line, at, h.end, Some(h.groups));
  }

  /** On one line, no tagged message starts after the end of another. */
  lemma NothingAfterTag(line: string, k: nat)
    requires forall j :: 0 <= j < |line| - 1 ==> line[j] != '\n'
    requires TagAt(line, k).Some?
    ensures NoHitFrom(line, TagMatches(line), TagAt(line, k).value.end)
  {
    var h := TagAt(line, k).value;
    TagAtSound(line, k);
    forall j: nat | h.end <= j <= |line| ensures TagAt(line, j).None? {
      if TagAt(line, j).Some? {
        TagStartsWithLetter(line, j);
      }
    }
  }

  // ---------------------------------------------------------------------------
  // Bucketing

  /** The result of parsing a log: one list of records per type. */
  type Buckets = map<Kind, seq<Message>>

  const EmptyBuckets: Buckets :=
    map[Warning := [], Error := [], Info := [], System := [], NoneKind := [], Command := [], Phase := []]

  /** The bucketing loop of `parse_vivado_output_file` over the lines of a log. */
  function Bucket(lines: seq<string>): (b: Buckets)
    ensures b.Keys == AllKinds
  {
    if |lines| == 0 then EmptyBuckets
    else
      var b := Bucket(lines[..|lines| - 1]);
      var m := Classify(lines[|lines| - 1]);
      b[m.Type() := b[m.Type()] + [m]]
  }

  function ClassifyAll(lines: seq<string>): (ms: seq<Message>)
    ensures |ms| == |lines| && forall i :: 0 <= i < |lines| ==> ms[i] == Classify(lines[i])
  {
    seq(|lines|, i requires 0 <= i < |lines| => Classify(lines[i]))
  }

  /** The records of type `k`, in order. */
  function OfKind(ms: seq<Message>, k: Kind): seq<Message> {
    if |ms| == 0 then []
    else OfKind(ms[..|ms| - 1], k) + (if ms[|ms| - 1].Type() == k then [ms[|ms| - 1]] else [])
  }

  /** Each bucket holds exactly the records of its type, in input order. */
  lemma {:induction false} BucketIsFilter(lines: seq<string>)
    ensures forall k :: k in AllKinds ==> Bucket(lines)[k] == OfKind(ClassifyAll(lines), k)
  {
    if |lines| > 0 {
      var init := lines[..|lines| - 1];
      BucketIsFilter(init);
      assert ClassifyAll(lines)[..|lines| - 1] == ClassifyAll(init);
    }
  }

  function Size(b: Buckets): nat
    requires b.Keys == AllKinds
  {
    |b[Warning]| + |b[Error]| + |b[Info]| + |b[System]| + |b[NoneKind]| + |b[Command]| + |b[Phase]|
  }

  /** No line is lost or counted twice. */
  lemma {:induction false} BucketSize(lines: seq<string>)
    ensures Size(Bucket(lines)) == |lines|
  {
    if |lines| > 0 {
      BucketSize(lines[..|lines| - 1]);
    }
  }
}
