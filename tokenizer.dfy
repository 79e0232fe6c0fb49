/**
 * The command-line tokenizer of the tiny shell (parseline in tsh.c).
 *
 * parseline copies the line into a static buffer, turns its last character
 * into a space, skips spaces, and cuts the buffer into arguments by writing
 * NUL over each delimiter. An argument opened by a single quote runs to the
 * next single quote (both quotes are dropped); any other argument runs to the
 * next space. Scanning stops at the first argument whose delimiter is missing.
 * A last argument whose first character is '&' marks a background job.
 *
 * The specification is the function Spans over the buffer contents; the
 * method ParseLine works in place on the buffer and the argv array exactly as
 * the C code does, and is proved to produce what Parse describes.
 */
module Tokenizer {
  import opened Options

  /** Size of the static line buffer (MAXLINE in tsh.c). */
  const MAXLINE: nat := 1024
  /** Size of the argv array (MAXARGS in tsh.c). */
  const MAXARGS: nat := 128
  const NUL: char := '\0'
  /** A null entry of argv; every other entry is an offset into the line buffer. */
  const NULL: int := -1


  /** One argument as the slice [start, end) of the buffer, end being the
      position of its delimiter; quoted says it was opened by a quote. */
  datatype Span = Span(start: nat, end: nat, quoted: bool)

  /** What parseline hands back: the arguments left in argv and its return value. */
  datatype Parsed = Parsed(args: seq<string>, bg: int)

  /** The buffer parseline scans: the line with its final character replaced by a space. */
  function Line(cmdline: string): (s: string)
    requires |cmdline| > 0
    ensures |s| == |cmdline| && s[|s| - 1] == ' '
    ensures forall k :: 0 <= k < |s| - 1 ==> s[k] == cmdline[k]
  {
    cmdline[..|cmdline| - 1] + [' ']
  }

  /** The first position at or after i that does not hold a space. */
  function SkipSpaces(s: string, i: nat): (j: nat)
    requires i <= |s|
    ensures i <= j <= |s|
    ensures forall k :: i <= k < j ==> s[k] == ' '
    ensures j < |s| ==> s[j] != ' '
    decreases |s| - i
  {
    if i < |s| && s[i] == ' ' then SkipSpaces(s, i + 1) else i
  }

  /** The first position at or after i that holds c, as strchr finds it. */
  function Find(s: string, i: nat, c: char): (r: Option<nat>)
    requires i <= |s|
    ensures r.Some? ==> i <= r.value < |s| && s[r.value] == c
    ensures r.Some? ==> forall k :: i <= k < r.value ==> s[k] != c
    ensures r.None? ==> forall k :: i <= k < |s| ==> s[k] != c
    decreases |s| - i
  {
    if i == |s| then None
    else if s[i] == c then Some(i)
    else Find(s, i + 1, c)
  }

  /** The argument that scanning from position i produces, or None when
      scanning stops there (end of the line or a missing delimiter). */
  function NextSpan(s: string, i: nat): (r: Option<Span>)
    requires i <= |s|
    ensures r.Some? ==> i <= r.value.start <= r.value.end < |s|
  {
    var j := SkipSpaces(s, i);
    if j < |s| && s[j] == '\'' then
      match Find(s, j + 1, '\'')
      case None => None
      case Some(d) => Some(Span(j + 1, d, true))
    else
      match Find(s, j, ' ')
      case None => None
      case Some(d) => Some(Span(j, d, false))
  }

  /** All arguments from position i on, in order. */
  function Spans(s: string, i: nat): (sp: seq<Span>)
    requires i <= |s|
    ensures forall t :: 0 <= t < |sp| ==> i <= sp[t].start <= sp[t].end < |s|
    decreases |s| - i
  {
    match NextSpan(s, i)
    case None => []
    case Some(x) => [x] + Spans(s, x.end + 1)
  }

  /** The text of every argument of s. */
  function Tokens(s: string): (ts: seq<string>)
    ensures |ts| == |Spans(s, 0)|
  {
    var sp := Spans(s, 0);
    seq(|sp|, t requires 0 <= t < |sp| => s[sp[t].start..sp[t].end])
  }

  predicate StartsWithAmpersand(arg: string) {
    |arg| > 0 && arg[0] == '&'
  }

  /** What parseline leaves in argv and returns for cmdline. */
  function Parse(cmdline: string): (p: Parsed)
    requires |cmdline| > 0
    ensures p.args <= Tokens(Line(cmdline))
    ensures p.bg == 0 || p.bg == 1
    ensures p.bg == 0 ==> p.args == Tokens(Line(cmdline)) != []
  {
    var ts := Tokens(Line(cmdline));
    if |ts| == 0 then Parsed([], 1)
    else if StartsWithAmpersand(ts[|ts| - 1]) then Parsed(ts[..|ts| - 1], 1)
    else Parsed(ts, 0)
  }

  // ---------------------------------------------------------------------
  // An independent description of the same tokenization: a sequence of
  // spans lexes s when each is a well-formed argument, only spaces separate
  // them, and what follows the last one holds no further argument.
  // ---------------------------------------------------------------------

  ghost predicate AllSpaces(s: string, a: int, b: int) {
    forall k :: a <= k < b && 0 <= k < |s| ==> s[k] == ' '
  }

  ghost predicate Free(s: string, a: int, b: int, c: char) {
    forall k :: a <= k < b && 0 <= k < |s| ==> s[k] != c
  }

  /** Where the argument x is opened: its quote, or its first character. */
  function Opening(x: Span): int {
    if x.quoted then x.start - 1 else x.start
  }

  /** x is a quoted argument (no quote inside, closed by a quote) or an
      unquoted one (non-empty, no space inside, not opened by a quote, closed by
      a space). */
  ghost predicate WellFormed(s: string, x: Span) {
    && x.start <= x.end < |s|
    && if x.quoted then
         0 < x.start && s[x.start - 1] == '\'' && s[x.end] == '\'' && Free(s, x.start, x.end, '\'')
       else
         x.start < x.end && s[x.start] != '\'' && s[x.end] == ' ' && Free(s, x.start, x.end, ' ')
  }

  /** Nothing more is produced from i: only spaces remain, or spaces and then
      a quote that is never closed. */
  ghost predicate Exhausted(s: string, i: nat) {
    || AllSpaces(s, i, |s|)
    || exists j :: i <= j < |s| && s[j] == '\'' && AllSpaces(s, i, j) && Free(s, j + 1, |s|, '\'')
  }

  ghost predicate Lexes(s: string, i: nat, sp: seq<Span>)
    decreases |sp|
  {
    if sp == [] then Exhausted(s, i)
    else
      && WellFormed(s, sp[0])
      && i <= Opening(sp[0])
      && AllSpaces(s, i, Opening(sp[0]))
      && Lexes(s, sp[0].end + 1, sp[1..])
  }

  lemma SkipSpacesUnique(s: string, i: nat, j: nat)
    requires i <= j <= |s| && AllSpaces(s, i, j) && (j < |s| ==> s[j] != ' ')
    ensures SkipSpaces(s, i) == j
  {
  }

  lemma FindUnique(s: string, i: nat, c: char, d: nat)
    requires i <= d < |s| && s[d] == c && Free(s, i, d, c)
    ensures Find(s, i, c) == Some(d)
  {
  }

  lemma FinalSpaceFound(s: string, j: nat)
    requires j <= |s| && |s| > 0 && s[|s| - 1] == ' '
    ensures j < |s| ==> Find(s, j, ' ').Some?
  {
  }

  /** The arguments Spans produces lex the line (soundness). */
  lemma {:induction false} SpansLex(s: string, i: nat)
    requires i <= |s| && |s| > 0 && s[|s| - 1] == ' '
    ensures Lexes(s, i, Spans(s, i))
    decreases |s| - i
  {
    match NextSpan(s, i)
    case None =>
      NoneExhausted(s, i);
    case Some(x) =>
      SpansLex(s, x.end + 1);
      SpansUnfold(s, i, x);
      FoundLexes(s, i, x, Spans(s, x.end + 1));
  }

  /** Where the scan finds nothing, nothing lexes. */
  lemma NoneExhausted(s: string, i: nat)
    requires i <= |s| && |s| > 0 && s[|s| - 1] == ' ' && NextSpan(s, i) == None
    ensures Exhausted(s, i)
  {
    var j := SkipSpaces(s, i);
    FinalSpaceFound(s, j);
    if j < |s| && s[j] == '\'' {
      assert AllSpaces(s, i, j) && Free(s, j + 1, |s|, '\'');
    } else {
      assert AllSpaces(s, i, |s|);
    }
  }

  /** The argument the scan finds, followed by a lexing of what comes after it,
      lexes from i. */
  lemma FoundLexes(s: string, i: nat, x: Span, rest: seq<Span>)
    requires i <= |s| && NextSpan(s, i) == Some(x) && Lexes(s, x.end + 1, rest)
    ensures Lexes(s, i, [x] + rest)
  {
    assert Opening(x) == SkipSpaces(s, i) && AllSpaces(s, i, Opening(x));
    assert WellFormed(s, x);
    assert ([x] + rest)[1..] == rest;
  }

  lemma FindNone(s: string, i: nat, c: char)
    requires i <= |s| && Free(s, i, |s|, c)
    ensures Find(s, i, c) == None
  {
  }

  /** When nothing more lexes from i, the scan finds nothing there. */
  lemma ExhaustedNone(s: string, i: nat)
    requires i <= |s| && Exhausted(s, i)
    ensures NextSpan(s, i) == None
  {
    if AllSpaces(s, i, |s|) {
      SkipSpacesUnique(s, i, |s|);
    } else {
      var j :| i <= j < |s| && s[j] == '\'' && AllSpaces(s, i, j) && Free(s, j + 1, |s|, '\'');
      SkipSpacesUnique(s, i, j);
      FindNone(s, j + 1, '\'');
    }
  }

  /** A well-formed argument after spaces is the one the scan finds. */
  lemma WellFormedFound(s: string, i: nat, x: Span)
    requires i <= |s| && WellFormed(s, x) && i <= Opening(x) && AllSpaces(s, i, Opening(x))
    ensures NextSpan(s, i) == Some(x)
  {
    SkipSpacesUnique(s, i, Opening(x));
    if x.quoted {
      FindUnique(s, x.start, '\'', x.end);
    } else {
      FindUnique(s, x.start, ' ', x.end);
    }
  }

  /** Every lexing of the line is the one Spans produces (completeness):
      the tokenization is determined by the shape rules alone. */
  lemma {:induction false} LexesUnique(s: string, i: nat, sp: seq<Span>)
    requires i <= |s| && Lexes(s, i, sp)
    ensures sp == Spans(s, i)
    decreases |sp|
  {
    if sp == [] {
      ExhaustedNone(s, i);
    } else {
      LexesHead(s, i, sp);
      LexesUnique(s, sp[0].end + 1, sp[1..]);
      SpansCons(s, i, sp);
    }
  }

  /** The first argument of a lexing is the one the scan finds, and the
      rest lexes what follows it. */
  lemma LexesHead(s: string, i: nat, sp: seq<Span>)
    requires i <= |s| && sp != [] && Lexes(s, i, sp)
    ensures NextSpan(s, i) == Some(sp[0]) && sp[0].end + 1 <= |s| && Lexes(s, sp[0].end + 1, sp[1..])
  {
    WellFormedFound(s, i, sp[0]);
  }

  /** Spans from i is the argument found there followed by the arguments after it. */
  lemma SpansCons(s: string, i: nat, sp: seq<Span>)
    requires i <= |s| && sp != [] && NextSpan(s, i) == Some(sp[0])
    requires sp[1..] == Spans(s, sp[0].end + 1)
    ensures sp == Spans(s, i)
  {
    var x, rest := sp[0], sp[1..];
    assert Spans(s, i) == [x] + rest;
    assert sp == [x] + rest;
  }

  lemma {:induction false} LexesElement(s: string, i: nat, sp: seq<Span>, t: nat)
    requires Lexes(s, i, sp) && t < |sp|
    ensures WellFormed(s, sp[t])
    decreases t
  {
    if t > 0 {
      LexesElement(s, sp[0].end + 1, sp[1..], t - 1);
    }
  }

  /** Every argument of a line is a quoted text without a quote, preceded and
      followed by a quote in the buffer, or a non-empty unquoted text without a
      space, not starting with a quote, followed by a space (the final
      character of the line counts as a space). */
  lemma TokenBoundaries(cmdline: string, t: nat)
    requires |cmdline| > 0 && t < |Tokens(Line(cmdline))|
    ensures var s, x, arg := Line(cmdline), Spans(Line(cmdline), 0)[t], Tokens(Line(cmdline))[t];
      && arg == s[x.start..x.end]
      && (x.quoted ==>
            0 < x.start && s[x.start - 1] == '\'' && s[x.end] == '\''
            && forall k :: 0 <= k < |arg| ==> arg[k] != '\'')
      && (!x.quoted ==>
            0 < |arg| && arg[0] != '\'' && s[x.end] == ' '
            && forall k :: 0 <= k < |arg| ==> arg[k] != ' ')
  {
    var s := Line(cmdline);
    var x := Spans(s, 0)[t];
    SpansLex(s, 0);
    LexesElement(s, 0, Spans(s, 0), t);
    WellFormedText(s, x);
    assert Tokens(s)[t] == s[x.start..x.end];
  }

  /** The text of a well-formed argument, read off its shape. */
  lemma WellFormedText(s: string, x: Span)
    requires WellFormed(s, x)
    ensures var arg := s[x.start..x.end];
      && (x.quoted ==>
            0 < x.start && s[x.start - 1] == '\'' && s[x.end] == '\''
            && forall k :: 0 <= k < |arg| ==> arg[k] != '\'')
      && (!x.quoted ==>
            0 < |arg| && arg[0] != '\'' && s[x.end] == ' '
            && forall k :: 0 <= k < |arg| ==> arg[k] != ' ')
  {
    var arg := s[x.start..x.end];
    assert forall k :: 0 <= k < |arg| ==> arg[k] == s[x.start + k];
  }

  /** Where scanning from i stops: the position after the last argument's
      leading spaces at which no further argument is found. */
  function StopPoint(s: string, i: nat): (j: nat)
    requires i <= |s|
    ensures i <= j <= |s|
    decreases |s| - i
  {
    match NextSpan(s, i)
    case None => SkipSpaces(s, i)
    case Some(x) => StopPoint(s, x.end + 1)
  }

  lemma {:induction false} SkipSpacesPrefix(s: string, i: nat, n: nat)
    requires i <= n <= |s| && SkipSpaces(s, i) <= n
    ensures SkipSpaces(s[..n], i) == SkipSpaces(s, i)
  {
    SkipSpacesUnique(s[..n], i, SkipSpaces(s, i));
  }

  lemma {:induction false} FindPrefix(s: string, i: nat, c: char, n: nat)
    requires i <= n <= |s| && Find(s, i, c).Some? && Find(s, i, c).value < n
    ensures Find(s[..n], i, c) == Find(s, i, c)
  {
    FindUnique(s[..n], i, c, Find(s, i, c).value);
  }

  lemma SpansUnfold(s: string, i: nat, x: Span)
    requires i <= |s| && NextSpan(s, i) == Some(x)
    ensures Spans(s, i) == [x] + Spans(s, x.end + 1)
  {
  }

  lemma {:induction false} StopPointTail(s: string, i: nat)
    requires i <= |s| && |s| > 0 && s[|s| - 1] == ' '
    ensures var j := StopPoint(s, i);
      j == |s| || (s[j] == '\'' && forall k :: j < k < |s| ==> s[k] != '\'')
    decreases |s| - i
  {
    match NextSpan(s, i)
    case None =>
      FinalSpaceFound(s, SkipSpaces(s, i));
    case Some(x) =>
      StopPointTail(s, x.end + 1);
  }

  /** The scan from i reads nothing past the delimiter it finds. */
  lemma NextSpanPrefix(s: string, i: nat, n: nat, x: Span)
    requires i <= n <= |s| && NextSpan(s, i) == Some(x) && x.end < n
    ensures NextSpan(s[..n], i) == Some(x)
  {
    var o := SkipSpaces(s, i);
    SkipSpacesPrefix(s, i, n);
    if o < |s| && s[o] == '\'' {
      FindPrefix(s, o + 1, '\'', n);
    } else {
      FindPrefix(s, o, ' ', n);
    }
  }

  lemma {:induction false} SpansBeforeStop(s: string, i: nat)
    requires i <= |s|
    ensures Spans(s, i) == Spans(s[..StopPoint(s, i)], i)
    decreases |s| - i
  {
    match NextSpan(s, i)
    case None =>
      StopNoSpan(s, i);
    case Some(x) =>
      SpansBeforeStop(s, x.end + 1);
      StopAfterSpan(s, i, x);
  }

  /** SpansBeforeStop when no argument starts at i. */
  lemma StopNoSpan(s: string, i: nat)
    requires i <= |s| && NextSpan(s, i) == None
    ensures Spans(s, i) == Spans(s[..StopPoint(s, i)], i)
  {
    var j := StopPoint(s, i);
    SkipSpacesPrefix(s, i, j);
    assert NextSpan(s[..j], i) == None;
  }

  /** SpansBeforeStop for an argument x at i, given it for what follows x. */
  lemma StopAfterSpan(s: string, i: nat, x: Span)
    requires i <= |s| && NextSpan(s, i) == Some(x)
    requires Spans(s, x.end + 1) == Spans(s[..StopPoint(s, x.end + 1)], x.end + 1)
    ensures Spans(s, i) == Spans(s[..StopPoint(s, i)], i)
  {
    var j := StopPoint(s, i);
    assert j == StopPoint(s, x.end + 1);
    NextSpanPrefix(s, i, j, x);
    SpansUnfold(s[..j], i, x);
    SpansUnfold(s, i, x);
  }

  /** Scanning stops at the end of the line or at a quote that is never
      closed; nothing from there on produces an argument, and the arguments
      before it are exactly those of the line cut off at that point. */
  lemma UnterminatedQuote(s: string, i: nat)
    requires i <= |s| && |s| > 0 && s[|s| - 1] == ' '
    ensures var j := StopPoint(s, i);
      && (j == |s| || (s[j] == '\'' && forall k :: j < k < |s| ==> s[k] != '\''))
      && Spans(s, i) == Spans(s[..j], i)
  {
    StopPointTail(s, i);
    SpansBeforeStop(s, i);
  }

  /** A line of spaces (before its final character) yields no argument, a null
      argv[0] and the return value 1. */
  lemma BlankLine(cmdline: string)
    requires |cmdline| > 0 && forall k :: 0 <= k < |cmdline| - 1 ==> cmdline[k] == ' '
    ensures Parse(cmdline) == Parsed([], 1)
  {
    var s := Line(cmdline);
    SkipSpacesUnique(s, 0, |s|);
    assert NextSpan(s, 0) == None;
  }

  /** A last argument that starts with '&' is dropped and the result is 1;
      otherwise every argument stays and the result is 0 (a line without
      arguments also gives 1). */
  lemma BackgroundMarker(cmdline: string)
    requires |cmdline| > 0
    ensures var ts, p := Tokens(Line(cmdline)), Parse(cmdline);
      && (p.bg == 1 <==> ts == [] || StartsWithAmpersand(ts[|ts| - 1]))
      && (p.bg == 0 <==> !(ts == [] || StartsWithAmpersand(ts[|ts| - 1])))
      && (p.bg == 1 && ts != [] ==> p.args + [ts[|ts| - 1]] == ts)
      && (p.bg == 0 ==> p.args == ts)
  {
    var ts := Tokens(Line(cmdline));
    if ts != [] {
      assert ts[..|ts| - 1] + [ts[|ts| - 1]] == ts;
    }
  }

  // ---------------------------------------------------------------------
  // The in-place implementation.
  // ---------------------------------------------------------------------

  /** The string that starts at offset i of a buffer: its characters up to
      the first NUL. */
  function CString(a: seq<char>, i: nat): (r: string)
    decreases |a| - i
  {
    if i >= |a| || a[i] == NUL then [] else [a[i]] + CString(a, i + 1)
  }

  /** Once NUL has been written at the end of every argument of s, each
      argument is the string at its start offset. */
  lemma TerminatedArgs(a: seq<char>, s: string, sp: seq<Span>, bound: nat)
    requires sp == Spans(s, 0)
    requires |s| < |a| && forall k :: 0 <= k < |s| ==> s[k] != NUL
    requires CutAll(a, s, sp, bound)
    ensures forall t :: 0 <= t < |sp| ==> CString(a, sp[t].start) == Tokens(s)[t]
    ensures forall t :: 0 <= t < |sp| ==> (a[sp[t].start] == '&') == StartsWithAmpersand(Tokens(s)[t])
  {
    forall t | 0 <= t < |sp|
      ensures CString(a, sp[t].start) == Tokens(s)[t]
      ensures (a[sp[t].start] == '&') == StartsWithAmpersand(Tokens(s)[t])
    {
      CutAllAt(a, s, sp, bound, t);
      TerminatedArg(a, s, sp[t]);
      FirstCharacter(a, s, sp[t]);
    }
  }

  lemma TerminatedArg(a: seq<char>, s: string, x: Span)
    requires x.start <= x.end < |s| < |a| && a[x.end] == NUL
    requires a[x.start..x.end] == s[x.start..x.end] && forall k :: x.start <= k < x.end ==> s[k] != NUL
    ensures CString(a, x.start) == s[x.start..x.end]
  {
    assert forall k :: x.start <= k < x.end ==> a[k] == a[x.start..x.end][k - x.start];
    CStringOfTerminated(a, x.start, x.end);
  }

  lemma {:induction false} CStringOfTerminated(a: seq<char>, i: nat, e: nat)
    requires i <= e < |a| && a[e] == NUL
    requires forall k :: i <= k < e ==> a[k] != NUL
    ensures CString(a, i) == a[i..e]
    decreases e - i
  {
    if i < e {
      CStringOfTerminated(a, i + 1, e);
      assert a[i..e] == [a[i]] + a[i + 1..e];
    }
  }

  /** The buffer a holds s from position from on, then a NUL. */
  ghost predicate HoldsFrom(a: seq<char>, s: string, from: nat) {
    && from <= |s| < |a|
    && a[|s|] == NUL
    && (forall k :: from <= k < |s| ==> a[k] == s[k])
    && (forall k :: from <= k < |s| ==> s[k] != NUL)
  }

  /** The argument x ends before bound, its delimiter in a has been
      overwritten with NUL, and its text in a is still that of s. */
  ghost predicate CutAt(a: seq<char>, s: string, x: Span, bound: nat) {
    && x.start <= x.end < bound
    && x.end < |s| && x.end < |a|
    && a[x.end] == NUL
    && a[x.start..x.end] == s[x.start..x.end]
  }

  /** Every argument of sps has been cut out of a as CutAt says. */
  ghost predicate CutAll(a: seq<char>, s: string, sps: seq<Span>, bound: nat)
    decreases |sps|
  {
    sps != [] ==> CutAll(a, s, sps[..|sps| - 1], bound) && CutAt(a, s, sps[|sps| - 1], bound)
  }

  lemma {:induction false} CutAllAt(a: seq<char>, s: string, sps: seq<Span>, bound: nat, t: nat)
    requires CutAll(a, s, sps, bound) && t < |sps|
    ensures CutAt(a, s, sps[t], bound)
    decreases |sps|
  {
    if t < |sps| - 1 {
      CutAllAt(a, s, sps[..|sps| - 1], bound, t);
    }
  }

  /** Writing a NUL at or after bound leaves the arguments already cut alone. */
  lemma {:induction false} CutAllWrite(a: seq<char>, s: string, sps: seq<Span>, bound: nat, e: nat)
    requires CutAll(a, s, sps, bound) && bound <= e < |a|
    ensures CutAll(a[e := NUL], s, sps, e + 1)
    decreases |sps|
  {
    if sps != [] {
      CutAllWrite(a, s, sps[..|sps| - 1], bound, e);
      var x := sps[|sps| - 1];
      assert a[e := NUL][x.start..x.end] == a[x.start..x.end];
    }
  }

  /** Cutting at the delimiter of the next argument x keeps both facts. */
  lemma CutStep(a: seq<char>, a': seq<char>, s: string, done: seq<Span>, pos: nat, x: Span,
                done': seq<Span>, bound': nat)
    requires HoldsFrom(a, s, pos) && CutAll(a, s, done, pos)
    requires pos <= x.start <= x.end < |s|
    requires a' == a[x.end := NUL] && done' == done + [x] && bound' == x.end + 1
    ensures HoldsFrom(a', s, bound') && CutAll(a', s, done', bound')
  {
    CutAllWrite(a, s, done, pos, x.end);
    assert a'[x.start..x.end] == s[x.start..x.end];
    assert done'[..|done|] == done;
  }

  /** The scan `while (*buf && *buf == ' ') buf++`. */
  method SkipBlanks(a: array<char>, from: nat, ghost s: string) returns (j: nat)
    requires HoldsFrom(a[..], s, from)
    ensures j == SkipSpaces(s, from)
  {
    j := from;
    while a[j] != NUL && a[j] == ' '
      invariant from <= j <= |s|
      invariant SkipSpaces(s, j) == SkipSpaces(s, from)
      decreases |s| - j
    {
      j := j + 1;
    }
  }

  /** strchr: the offset of the first c at or after from, or NULL when a NUL
      comes first. */
  method StrChr(a: array<char>, from: nat, c: char, ghost s: string) returns (r: int)
    requires HoldsFrom(a[..], s, from) && c != NUL
    ensures r == match Find(s, from, c) case None => NULL case Some(d) => d
  {
    var i := from;
    while a[i] != c && a[i] != NUL
      invariant from <= i <= |s|
      invariant Find(s, i, c) == Find(s, from, c)
      decreases |s| - i
    {
      i := i + 1;
    }
    r := if a[i] == c then i else NULL;
  }

  /** (buf, delim) is how the C code holds the argument o: buf at its first
      character and delim at its delimiter, or delim NULL when o is None. */
  ghost predicate Holds(buf: int, delim: int, o: Option<Span>) {
    match o
    case None => delim == NULL
    case Some(x) => buf == x.start && delim == x.end
  }

  /** The scan that the C code writes out twice: skip spaces, step over an
      opening quote, and look for the matching delimiter. */
  method NextArg(a: array<char>, from: nat, ghost s: string) returns (buf: nat, delim: int)
    requires HoldsFrom(a[..], s, from)
    ensures Holds(buf, delim, NextSpan(s, from))
  {
    buf := SkipBlanks(a, from, s);
    if a[buf] == '\'' {
      buf := buf + 1;
      delim := StrChr(a, buf, '\'', s);
    } else {
      delim := StrChr(a, buf, ' ', s);
    }
  }

  /** strcpy of the line into the buffer, then its final character becomes
      a space. */
  method CopyLine(cmdline: string, line: array<char>)
    requires 0 < |cmdline| < line.Length && forall k :: 0 <= k < |cmdline| ==> cmdline[k] != NUL
    modifies line
    ensures HoldsFrom(line[..], Line(cmdline), 0)
  {
    var n := |cmdline|;
    for k := 0 to n
      invariant forall m :: 0 <= m < k ==> line[m] == cmdline[m]
    {
      line[k] := cmdline[k];
    }
    line[n] := NUL;
    line[n - 1] := ' ';
  }

  /** The character at the start offset of an argument, once its delimiter
      has been overwritten, is '&' exactly when the argument begins with '&'. */
  lemma FirstCharacter(a: seq<char>, s: string, x: Span)
    requires x.start <= x.end < |s| < |a| && a[x.end] == NUL
    requires a[x.start..x.end] == s[x.start..x.end]
    ensures (a[x.start] == '&') == StartsWithAmpersand(s[x.start..x.end])
  {
    if x.start < x.end {
      assert a[x.start] == a[x.start..x.end][0];
    }
  }

  /** Where the scan for argument n of sp starts: at the beginning of the
      buffer, or just after the delimiter of argument n - 1. */
  function After(sp: seq<Span>, n: nat): nat
    requires n <= |sp|
  {
    if n == 0 then 0 else sp[n - 1].end + 1
  }

  /** The arguments from number n on are what scanning from After(sp, n) produces. */
  lemma {:induction false} SpansFromAfter(s: string, sp: seq<Span>, n: nat)
    requires sp == Spans(s, 0) && n <= |sp|
    ensures After(sp, n) <= |s| && sp[n..] == Spans(s, After(sp, n))
  {
    if n > 0 {
      SpansFromAfter(s, sp, n - 1);
      AfterStep(s, sp, n);
    } else {
      assert sp[0..] == sp;
    }
  }

  /** The step of SpansFromAfter: past argument n - 1 the scan resumes at After(sp, n). */
  lemma AfterStep(s: string, sp: seq<Span>, n: nat)
    requires 0 < n <= |sp| && After(sp, n - 1) <= |s| && sp[n - 1..] == Spans(s, After(sp, n - 1))
    ensures After(sp, n) <= |s| && sp[n..] == Spans(s, After(sp, n))
  {
    var p := After(sp, n - 1);
    SpansHead(s, p);
    var q := sp[n - 1].end + 1;
    assert After(sp, n) == q;
    DropFirst(sp, n, Spans(s, q));
  }

  /** A non-empty Spans starts with what NextSpan finds. */
  lemma SpansHead(s: string, p: nat)
    requires p <= |s| && Spans(s, p) != []
    ensures var x := Spans(s, p)[0];
      NextSpan(s, p) == Some(x) && Spans(s, p) == [x] + Spans(s, x.end + 1)
  {
    match NextSpan(s, p)
    case None =>
    case Some(x) => assert Spans(s, p)[0] == x;
  }

  lemma DropFirst(sp: seq<Span>, n: nat, rest: seq<Span>)
    requires 0 < n <= |sp| && sp[n - 1..] == [sp[n - 1]] + rest
    ensures sp[n..] == rest
  {
    assert sp[n..] == sp[n - 1..][1..];
  }

  /** The scan from After(sp, n) finds argument n, or nothing once all are found. */
  lemma NextFromAfter(s: string, sp: seq<Span>, n: nat)
    requires sp == Spans(s, 0) && n <= |sp|
    ensures After(sp, n) <= |s|
    ensures NextSpan(s, After(sp, n)) == if n < |sp| then Some(sp[n]) else None
  {
    SpansFromAfter(s, sp, n);
    var p := After(sp, n);
    match NextSpan(s, p)
    case None =>
    case Some(x) =>
      SpansUnfold(s, p, x);
      assert sp[n..][0] == x;
  }

  /** The scan for argument n of the line, from After(sp, n). */
  method ScanArg(line: array<char>, from: nat, ghost s: string, ghost sp: seq<Span>, ghost n: nat)
    returns (buf: nat, delim: int)
    requires sp == Spans(s, 0) && n <= |sp| && from == After(sp, n) && HoldsFrom(line[..], s, from)
    ensures Holds(buf, delim, if n < |sp| then Some(sp[n]) else None)
    ensures n < |sp| ==> from <= buf <= delim < |s|
  {
    NextFromAfter(s, sp, n);
    buf, delim := NextArg(line, from, s);
  }

  /** One turn of the loop that builds argv: argv[argc] = buf and
      *delim = '\0' for argument argc, which the scan found; the next scan
      starts at pos', just past the delimiter. */
  method StoreArg(line: array<char>, argv: array<int>, argc: nat, buf: nat, delim: int,
                  ghost s: string, ghost sp: seq<Span>, ghost pos: nat)
    returns (argc': nat, pos': nat)
    requires argc < |sp| < argv.Length && sp[argc].start == buf && sp[argc].end == delim
    requires pos <= buf <= delim < |s|
    requires HoldsFrom(line[..], s, pos) && CutAll(line[..], s, sp[..argc], pos)
    requires forall t :: 0 <= t < argc ==> argv[t] == sp[t].start
    modifies line, argv
    ensures argc' == argc + 1 && pos' == delim + 1 == After(sp, argc')
    ensures HoldsFrom(line[..], s, pos') && CutAll(line[..], s, sp[..argc'], pos')
    ensures forall t :: 0 <= t < argc' ==> argv[t] == sp[t].start
  {
    ghost var before := line[..];
    argv[argc] := buf;
    line[delim] := NUL;
    argc', pos' := argc + 1, delim + 1;
    assert sp[..argc] + [sp[argc]] == sp[..argc'];
    CutStep(before, line[..], s, sp[..argc], pos, sp[argc], sp[..argc'], pos');
  }

  /** The loop that builds argv: records each argument's start offset,
      overwrites its delimiter with NUL, and nulls the entry after the last. */
  method CutArgs(line: array<char>, argv: array<int>, ghost s: string) returns (argc: nat, ghost bound: nat)
    requires HoldsFrom(line[..], s, 0) && argv.Length == MAXARGS && |Spans(s, 0)| < MAXARGS
    modifies line, argv
    ensures argc == |Spans(s, 0)| && argv[argc] == NULL
    ensures forall t :: 0 <= t < argc ==> argv[t] == Spans(s, 0)[t].start
    ensures CutAll(line[..], s, Spans(s, 0), bound)
  {
    ghost var sp := Spans(s, 0);
    var pos: nat := 0;
    var buf, delim := ScanArg(line, 0, s, sp, 0);
    argc := 0;
    while delim != NULL
      invariant argc <= |sp| && pos == After(sp, argc) <= |s|
      invariant HoldsFrom(line[..], s, pos) && CutAll(line[..], s, sp[..argc], pos)
      invariant Holds(buf, delim, if argc < |sp| then Some(sp[argc]) else None)
      invariant argc < |sp| ==> pos <= buf <= delim < |s|
      invariant forall t :: 0 <= t < argc ==> argv[t] == sp[t].start
      decreases |sp| - argc
    {
      argc, pos := StoreArg(line, argv, argc, buf, delim, s, sp, pos);
      buf, delim := ScanArg(line, pos, s, sp, argc);
    }
    argv[argc] := NULL;
    assert sp[..argc] == sp;
    bound := pos;
  }

  /** The argv that parseline builds: after the loop, argument t is the
      NUL-terminated string at offset argv[t], and argv[argc] is NULL. */
  method SplitArgs(line: array<char>, argv: array<int>, ghost s: string) returns (argc: nat)
    requires HoldsFrom(line[..], s, 0) && argv.Length == MAXARGS && |Spans(s, 0)| < MAXARGS
    modifies line, argv
    ensures argc == |Spans(s, 0)| && argv[argc] == NULL
    ensures forall t :: 0 <= t < argc ==> argv[t] == Spans(s, 0)[t].start
    ensures forall t :: 0 <= t < argc ==> CString(line[..], argv[t]) == Tokens(s)[t]
    ensures forall t :: 0 <= t < argc ==>
      (line[argv[t]] == '&') == StartsWithAmpersand(Tokens(s)[t])
  {
    ghost var bound;
    argc, bound := CutArgs(line, argv, s);
    TerminatedArgs(line[..], s, Spans(s, 0), bound);
  }

  /** parseline: fills argv with offsets into the static buffer `line` (the
      array of that name in the C code) at which the arguments start as
      NUL-terminated strings, nulls the entry after the last, and returns the
      background flag. */
  method ParseLine(cmdline: string, line: array<char>, argv: array<int>) returns (bg: int)
    requires 0 < |cmdline| < MAXLINE && forall k :: 0 <= k < |cmdline| ==> cmdline[k] != NUL
    requires line.Length == MAXLINE && argv.Length == MAXARGS
    requires |Spans(Line(cmdline), 0)| < MAXARGS
    modifies line, argv
    ensures bg == Parse(cmdline).bg
    ensures var args := Parse(cmdline).args;
      && |args| < MAXARGS
      && argv[|args|] == NULL
      && forall t :: 0 <= t < |args| ==> 0 <= argv[t] < line.Length && CString(line[..], argv[t]) == args[t]
  {
    CopyLine(cmdline, line);
    var argc := SplitArgs(line, argv, Line(cmdline));
    if argc == 0 {
      return 1;
    }
    bg := if line[argv[argc - 1]] == '&' then 1 else 0;
    if bg != 0 {
      argc := argc - 1;
      argv[argc] := NULL;
    }
  }

  /** The tokens of s, given its arguments and their texts. */
  lemma TokensOf(s: string, sp: seq<Span>, ws: seq<string>)
    requires sp == Spans(s, 0) && |ws| == |sp|
    requires forall t :: 0 <= t < |sp| ==> s[sp[t].start..sp[t].end] == ws[t]
    ensures Tokens(s) == ws
  {
  }

  /** A quoted argument keeps its inner space. */
  lemma QuotedExample()
    ensures Parse("echo 'a b' c\n") == Parsed(["echo", "a b", "c"], 0)
  {
    var s := "echo 'a b' c ";
    assert Line("echo 'a b' c\n") == s;
    QuotedTokens(s);
  }

  /** The arguments the scan finds in the buffer of the quoted example. */
  lemma QuotedSpans(s: string)
    requires s == "echo 'a b' c "
    ensures Spans(s, 0) == [Span(0, 4, false), Span(6, 9, true), Span(11, 12, false)]
  {
    var x1, x2, x3 := Span(0, 4, false), Span(6, 9, true), Span(11, 12, false);
    WellFormedFound(s, 0, x1);
    WellFormedFound(s, 5, x2);
    WellFormedFound(s, 10, x3);
    ExhaustedNone(s, 13);
    SpansUnfold(s, 10, x3);
    SpansUnfold(s, 5, x2);
    SpansUnfold(s, 0, x1);
  }

  /** Their texts, as Tokens gives them. */
  lemma QuotedTokens(s: string)
    requires s == "echo 'a b' c "
    ensures Tokens(s) == ["echo", "a b", "c"]
  {
    QuotedSpans(s);
    QuotedTexts(s);
    TokensOf(s, [Span(0, 4, false), Span(6, 9, true), Span(11, 12, false)], ["echo", "a b", "c"]);
  }

  lemma QuotedTexts(s: string)
    requires s == "echo 'a b' c "
    ensures s[0..4] == "echo" && s[6..9] == "a b" && s[11..12] == "c"
  {
  }

  /** A trailing ampersand requests the background and is dropped. */
  lemma BackgroundExample()
    ensures Parse("sleep 5 &\n") == Parsed(["sleep", "5"], 1)
  {
    var s := "sleep 5 & ";
    assert Line("sleep 5 &\n") == s;
    BackgroundTokens(s);
    assert ["sleep", "5", "&"][..2] == ["sleep", "5"];
  }

  /** The arguments the scan finds in the buffer of the background example. */
  lemma BackgroundSpans(s: string)
    requires s == "sleep 5 & "
    ensures Spans(s, 0) == [Span(0, 5, false), Span(6, 7, false), Span(8, 9, false)]
  {
    var x1, x2, x3 := Span(0, 5, false), Span(6, 7, false), Span(8, 9, false);
    WellFormedFound(s, 0, x1);
    WellFormedFound(s, 6, x2);
    WellFormedFound(s, 8, x3);
    ExhaustedNone(s, 10);
    SpansUnfold(s, 8, x3);
    SpansUnfold(s, 6, x2);
    SpansUnfold(s, 0, x1);
  }

  /** Their texts, as Tokens gives them. */
  lemma BackgroundTokens(s: string)
    requires s == "sleep 5 & "
    ensures Tokens(s) == ["sleep", "5", "&"]
  {
    BackgroundSpans(s);
    BackgroundTexts(s);
    TokensOf(s, [Span(0, 5, false), Span(6, 7, false), Span(8, 9, false)], ["sleep", "5", "&"]);
  }

  lemma BackgroundTexts(s: string)
    requires s == "sleep 5 & "
    ensures s[0..5] == "sleep" && s[6..7] == "5" && s[8..9] == "&"
  {
  }

  /** A tab does not separate arguments, and a last argument only has to
      start with '&' to mark the background. */
  lemma TabAndMarkerExample()
    ensures Parse("a\tb &x\n") == Parsed(["a\tb"], 1)
  {
    var s := "a\tb &x ";
    assert Line("a\tb &x\n") == s;
    TabAndMarkerTokens(s);
    assert ["a\tb", "&x"][..1] == ["a\tb"];
  }

  /** The arguments the scan finds in the buffer of the tab example. */
  lemma TabAndMarkerSpans(s: string)
    requires s == "a\tb &x "
    ensures Spans(s, 0) == [Span(0, 3, false), Span(4, 6, false)]
  {
    var x1, x2 := Span(0, 3, false), Span(4, 6, false);
    WellFormedFound(s, 0, x1);
    WellFormedFound(s, 4, x2);
    ExhaustedNone(s, 7);
    SpansUnfold(s, 4, x2);
    SpansUnfold(s, 0, x1);
  }

  /** Their texts, as Tokens gives them. */
  lemma TabAndMarkerTokens(s: string)
    requires s == "a\tb &x "
    ensures Tokens(s) == ["a\tb", "&x"]
  {
    TabAndMarkerSpans(s);
    TabAndMarkerTexts(s);
    TokensOf(s, [Span(0, 3, false), Span(4, 6, false)], ["a\tb", "&x"]);
  }

  lemma TabAndMarkerTexts(s: string)
    requires s == "a\tb &x "
    ensures s[0..3] == "a\tb" && s[4..6] == "&x"
  {
  }
}
