/**
 The block the Unraid installer keeps in /boot/config/go (ensureGoHook and
 removeGoHook in agent/internal/svcinstall/svcinstall_linux.go).
 */
module GoHook {
  import opened Whitespace
  import opened Wrappers

  const DIR := "/boot/config/plugins/pktnode-agent"
  const RUN_DIR := "/usr/local/pktnode-agent"
  const BIN_PATH := DIR + "/pktnode-agent"
  const RUN_PATH := RUN_DIR + "/pktnode-agent"
  const SUPERVISOR_LOG := DIR + "/supervisor.log"
  const BEGIN := "# --- pktnode-agent " + "(managed; do not edit by hand) ---"
  const END := "# --- end pktnode-agent ---"

  const MKDIR := "mkdir -p " + RUN_DIR
  const COPY := "cp " + BIN_PATH + " " + RUN_PATH
  const CHMOD := "chmod 0755 " + RUN_PATH
  const START := RUN_PATH + " supervise >> " + SUPERVISOR_LOG + " 2>&1 &"

  /** What follows the newline that starts the block. */
  const BLOCK := BEGIN + "\n" + (MKDIR + "\n" + (COPY + "\n" + (CHMOD + "\n" + (START + "\n" + (END + "\n")))))

  // ---- strings.Split, Join and Contains -----------------------------------------

  function Split(s: string): (r: seq<string>)
    ensures r != []
    ensures forall line | line in r :: '\n' !in line
  {
    if s == [] then [[]] else Prepend(s[0], Split(s[1..]))
  }

  function Prepend(c: char, lines: seq<string>): (r: seq<string>)
    requires lines != []
    ensures r != []
  {
    if c == '\n' then [[]] + lines else [[c] + lines[0]] + lines[1..]
  }

  lemma PrependFirst(c: char, lines: seq<string>, more: seq<string>)
    requires lines != []
    ensures Prepend(c, lines + more) == Prepend(c, lines) + more
  {}

  function Join(lines: seq<string>): string {
    if lines == [] then [] else if |lines| == 1 then lines[0] else lines[0] + "\n" + Join(lines[1..])
  }

  predicate HasAt(s: string, t: string, i: nat) {
    i + |t| <= |s| && s[i..i + |t|] == t
  }

  predicate Contains(s: string, t: string) {
    exists i | 0 <= i <= |s| :: HasAt(s, t, i)
  }

  lemma {:induction false} JoinSplit(s: string)
    ensures Join(Split(s)) == s
  {
    if s != [] {
      JoinSplit(s[1..]);
      var rest := Split(s[1..]);
      if s[0] == '\n' {
        assert ([[]] + rest)[1..] == rest;
      } else if |rest| > 1 {
        assert ([[s[0]] + rest[0]] + rest[1..])[1..] == rest[1..];
      }
    }
  }

  /** Splitting at a line's own newline. */
  lemma {:induction false} SplitAfter(s: string, rest: string)
    ensures Split(s + "\n" + rest) == Split(s) + Split(rest)
  {
    if s == [] {
      assert (s + "\n" + rest)[1..] == rest;
    } else {
      SplitAfter(s[1..], rest);
      PrependFirst(s[0], Split(s[1..]), Split(rest));
      assert (s + "\n" + rest)[1..] == s[1..] + "\n" + rest;
    }
  }

  lemma {:induction false} SplitOneLine(line: string)
    requires '\n' !in line
    ensures Split(line) == [line]
  {
    if line != [] {
      SplitOneLine(line[1..]);
      assert line == [line[0]] + line[1..];
    }
  }

  lemma {:induction false} SplitJoin(lines: seq<string>)
    requires lines != [] && forall line | line in lines :: '\n' !in line
    ensures Split(Join(lines)) == lines
  {
    SplitOneLine(lines[0]);
    if |lines| > 1 {
      SplitJoin(lines[1..]);
      SplitAfter(lines[0], Join(lines[1..]));
    }
  }

  // ---- What goes and what stays ------------------------------------------------------------------

  predicate IsBegin(line: string) {
    Trim(line, Go) == BEGIN
  }

  predicate IsEnd(line: string) {
    Trim(line, Go) == END
  }

  /** Line `i` is inside a block: below a begin marker, with no end marker between. */
  predicate Inside(lines: seq<string>, i: nat)
    requires i <= |lines|
  {
    exists j | 0 <= j < i :: IsBegin(lines[j]) && forall k | j < k < i :: !IsEnd(lines[k])
  }

  predicate Stays(lines: seq<string>, i: nat)
    requires i < |lines|
  {
    !IsBegin(lines[i]) && !IsEnd(lines[i]) && !Inside(lines, i)
  }

  /** Of the first `n` lines those that stay, in their order. */
  function Kept(lines: seq<string>, n: nat): (r: seq<string>)
    requires n <= |lines|
    ensures forall line | line in r :: line in lines && !IsBegin(line) && !IsEnd(line)
  {
    if n == 0 then [] else Kept(lines, n - 1) + if Stays(lines, n - 1) then [lines[n - 1]] else []
  }

  function Ensured(text: string): string {
    if Contains(text, BEGIN) then text else text + "\n" + BLOCK
  }

  function Removed(text: string): string {
    var lines := Split(text);
    Join(Kept(lines, |lines|))
  }

  /** One marker at most decides whether the next line is inside. */
  lemma InsideNext(lines: seq<string>, i: nat)
    requires i < |lines|
    ensures Inside(lines, i + 1) == (IsBegin(lines[i]) || (Inside(lines, i) && !IsEnd(lines[i])))
  {}

  lemma BeginIsNotEnd(line: string)
    ensures !(IsBegin(line) && IsEnd(line))
  {
    assert |BEGIN| != |END|;
  }

  /** /boot/config/go; None where there is no such file. */
  class Script {
    var text: Option<string>

    constructor (text: Option<string>)
      ensures this.text == text
    {
      this.text := text;
    }

    method EnsureHook() returns (ok: bool)
      modifies this
      ensures ok == old(text).Some?
      ensures text == if old(text).Some? then Some(Ensured(old(text).value)) else None
    {
      if text.None? {
        return false;
      }
      if Contains(text.value, BEGIN) {
        return true;
      }
      text := Some(text.value + "\n" + BLOCK);
      ok := true;
    }

    method RemoveHook()
      modifies this
      ensures text == if old(text).Some? then Some(Removed(old(text).value)) else None
    {
      if text.None? {
        return;
      }
      hide IsBegin, IsEnd, Inside;
      var lines := Split(text.value);
      var out: seq<string> := [];
      var skipping := false;
      NothingInsideYet(lines);
      for i := 0 to |lines|
        invariant skipping == Inside(lines, i)
        invariant out == Kept(lines, i)
      {
        InsideNext(lines, i);
        BeginIsNotEnd(lines[i]);
        if IsBegin(lines[i]) {
          skipping := true;
          continue;
        }
        if IsEnd(lines[i]) {
          skipping := false;
          continue;
        }
        if skipping {
          continue;
        }
        out := out + [lines[i]];
      }
      text := Some(Join(out));
    }
  }

  lemma NothingInsideYet(lines: seq<string>)
    ensures !Inside(lines, 0)
  {}

  // ---- Installing and uninstalling ---------------------------------------------------------------

  ghost predicate NoBegin(lines: seq<string>) {
    forall line | line in lines :: !IsBegin(line)
  }

  ghost predicate NoEnd(lines: seq<string>) {
    forall line | line in lines :: !IsEnd(line)
  }

  function WithoutEnds(lines: seq<string>): (r: seq<string>)
    ensures NoEnd(lines) ==> r == lines
    ensures NoEnd(r) && forall line | line in r :: line in lines
  {
    if lines == [] then []
    else WithoutEnds(lines[..|lines| - 1]) + if IsEnd(lines[|lines| - 1]) then [] else [lines[|lines| - 1]]
  }

  lemma {:induction false} KeptWithoutBegin(lines: seq<string>, more: seq<string>, n: nat)
    requires NoBegin(lines) && n <= |lines|
    ensures Kept(lines + more, n) == WithoutEnds(lines[..n])
    ensures !Inside(lines + more, n)
  {
    hide IsBegin, IsEnd;
    if n > 0 {
      KeptWithoutBegin(lines, more, n - 1);
      assert (lines + more)[n - 1] == lines[n - 1] && lines[n - 1] in lines;
      InsideNext(lines + more, n - 1);
      assert lines[..n][..n - 1] == lines[..n - 1];
    }
  }

  lemma {:induction false} TrimRightKeepsFirst(s: string)
    requires s != [] && !IsSpace(s[0], Go)
    ensures TrimRight(s, Go) != [] && TrimRight(s, Go)[0] == s[0]
  {
    if IsSpace(s[|s| - 1], Go) {
      TrimRightKeepsFirst(s[..|s| - 1]);
    }
  }

  /** A line whose first character is neither a space nor a hash is no marker. */
  lemma NotAMarker(line: string)
    requires line != [] && !IsSpace(line[0], Go) && line[0] != '#'
    ensures !IsEnd(line)
  {
    TrimRightKeepsFirst(line);
    assert END[0] == '#';
  }

  lemma MarkersAreMarkers()
    ensures IsBegin(BEGIN) && IsEnd(END) && !IsEnd("") && !IsBegin("")
  {}

  lemma SplitLine(line: string, rest: string)
    requires '\n' !in line
    ensures Split(line + "\n" + rest) == [line] + Split(rest)
  {
    SplitOneLine(line);
    SplitAfter(line, rest);
  }

  lemma SplitSix(a: string, b: string, c: string, d: string, e: string, f: string)
    requires '\n' !in a && '\n' !in b && '\n' !in c && '\n' !in d && '\n' !in e && '\n' !in f
    ensures Split(a + "\n" + (b + "\n" + (c + "\n" + (d + "\n" + (e + "\n" + (f + "\n")))))) == [a, b, c, d, e, f, ""]
  {
    var atF := f + "\n";
    var atE := e + "\n" + atF;
    var atD := d + "\n" + atE;
    var atC := c + "\n" + atD;
    var atB := b + "\n" + atC;
    assert f + "\n" + "" == atF;
    SplitLine(f, "");
    SplitLine(e, atF);
    SplitLine(d, atE);
    SplitLine(c, atD);
    SplitLine(b, atC);
    SplitLine(a, atB);
  }

  predicate OneLine(s: string) {
    '\n' !in s
  }

  lemma OneLineBoth(a: string, b: string)
    requires OneLine(a) && OneLine(b)
    ensures OneLine(a + b)
  {}

  lemma MarkersAreLines()
    ensures OneLine(BEGIN) && OneLine(END)
  {
    OneLineBoth("# --- pktnode-agent ", "(managed; do not edit by hand) ---");
  }

  lemma PathsAreLines()
    ensures OneLine(RUN_DIR) && OneLine(BIN_PATH) && OneLine(RUN_PATH) && OneLine(SUPERVISOR_LOG)
  {}

  lemma CopyIsALine()
    ensures OneLine(MKDIR) && OneLine(COPY) && OneLine(CHMOD)
  {
    PathsAreLines();
    OneLineBoth("mkdir -p ", RUN_DIR);
    OneLineBoth("cp ", BIN_PATH);
    OneLineBoth("cp " + BIN_PATH, " ");
    OneLineBoth("cp " + BIN_PATH + " ", RUN_PATH);
    OneLineBoth("chmod 0755 ", RUN_PATH);
  }

  lemma StartIsALine()
    ensures OneLine(START)
  {
    PathsAreLines();
    OneLineBoth(RUN_PATH, " supervise >> ");
    OneLineBoth(RUN_PATH + " supervise >> ", SUPERVISOR_LOG);
    OneLineBoth(RUN_PATH + " supervise >> " + SUPERVISOR_LOG, " 2>&1 &");
  }

  lemma BlockLines()
    ensures Split(BLOCK) == [BEGIN, MKDIR, COPY, CHMOD, START, END, ""]
  {
    MarkersAreLines();
    CopyIsALine();
    StartIsALine();
    SplitSix(BEGIN, MKDIR, COPY, CHMOD, START, END);
  }

  lemma CommandsAreNoEnd()
    ensures !IsEnd(MKDIR) && !IsEnd(COPY) && !IsEnd(CHMOD) && !IsEnd(START)
  {
    assert MKDIR[0] == 'm' && COPY[0] == 'c' && CHMOD[0] == 'c';
    assert START[0] == RUN_DIR[0] == '/';
    NotAMarker(MKDIR);
    NotAMarker(COPY);
    NotAMarker(CHMOD);
    NotAMarker(START);
  }

  /** Seven lines such as the block's after a file without a begin marker: of them only the last is kept. */
  lemma KeptBeforeSeven(lines: seq<string>, block: seq<string>)
    requires NoBegin(lines) && |block| == 7
    requires IsBegin(block[0]) && (forall i | 1 <= i < 5 :: !IsEnd(block[i])) && IsEnd(block[5])
    requires !IsBegin(block[6]) && !IsEnd(block[6])
    ensures var all := lines + block; Kept(all, |all|) == WithoutEnds(lines) + [block[6]]
  {
    hide IsBegin, IsEnd, Inside, WithoutEnds, Kept, Stays;
    var n, all := |lines|, lines + block;
    KeptWithoutBegin(lines, block, n);
    assert lines[..n] == lines;
    BeginIsNotEnd(block[5]);
    for i := 0 to 6
      invariant Kept(all, n + i) == WithoutEnds(lines)
      invariant Inside(all, n + i) == (0 < i < 6)
    {
      assert all[n + i] == block[i];
      OneMoreLine(all, n + i);
    }
    assert all[n + 6] == block[6];
    OneMoreLine(all, n + 6);
  }

  lemma OneMoreLine(lines: seq<string>, i: nat)
    requires i < |lines|
    ensures Inside(lines, i + 1) == (IsBegin(lines[i]) || (Inside(lines, i) && !IsEnd(lines[i])))
    ensures Kept(lines, i + 1) == Kept(lines, i) + if !IsBegin(lines[i]) && !IsEnd(lines[i]) && !Inside(lines, i)
              then [lines[i]] else []
  {
    InsideNext(lines, i);
  }

  /** Of a file with the block appended: everything before the block but end markers, and an empty last line. */
  lemma KeptBeforeBlock(lines: seq<string>)
    requires NoBegin(lines)
    ensures var all := lines + Split(BLOCK); Kept(all, |all|) == WithoutEnds(lines) + [""]
  {
    BlockLines();
    CommandsAreNoEnd();
    MarkersAreMarkers();
    hide IsBegin, IsEnd, Split, Kept;
    KeptBeforeSeven(lines, [BEGIN, MKDIR, COPY, CHMOD, START, END, ""]);
  }

  // ---- A marker in a line is a marker in the text -------------------------------------------------

  lemma {:induction false} FirstLineIsPrefix(s: string)
    ensures Split(s)[0] <= s
  {
    if s != [] {
      FirstLineIsPrefix(s[1..]);
    }
  }

  lemma ContainsMore(s: string, t: string)
    requires s != [] && Contains(s[1..], t)
    ensures Contains(s, t)
  {
    var i :| 0 <= i <= |s[1..]| && HasAt(s[1..], t, i);
    assert s[1 + i..1 + i + |t|] == s[1..][i..i + |t|];
    assert HasAt(s, t, 1 + i);
  }

  lemma ContainsInPrefix(s: string, prefix: string, t: string)
    requires prefix <= s && Contains(prefix, t)
    ensures Contains(s, t)
  {
    var i :| 0 <= i <= |prefix| && HasAt(prefix, t, i);
    assert s[i..i + |t|] == prefix[i..i + |t|];
    assert HasAt(s, t, i);
  }

  lemma {:induction false} LineInText(s: string, line: string, t: string)
    requires line in Split(s) && Contains(line, t)
    ensures Contains(s, t)
  {
    FirstLineIsPrefix(s);
    if line == Split(s)[0] {
      ContainsInPrefix(s, line, t);
    } else {
      assert s != [] && line in Split(s[1..]);
      LineInText(s[1..], line, t);
      ContainsMore(s, t);
    }
  }

  lemma {:induction false} TrimLeftIsWithin(s: string, t: string)
    requires Contains(TrimLeft(s, Go), t)
    ensures Contains(s, t)
  {
    if s != [] && IsSpace(s[0], Go) {
      TrimLeftIsWithin(s[1..], t);
      ContainsMore(s, t);
    }
  }

  lemma {:induction false} TrimRightIsPrefix(s: string)
    ensures TrimRight(s, Go) <= s
  {
    if s != [] && IsSpace(s[|s| - 1], Go) {
      TrimRightIsPrefix(s[..|s| - 1]);
    }
  }

  lemma NoMarkerInText(text: string)
    requires !Contains(text, BEGIN)
    ensures NoBegin(Split(text))
  {
    forall line | line in Split(text)
      ensures !IsBegin(line)
    {
      if IsBegin(line) {
        TrimRightIsPrefix(TrimLeft(line, Go));
        assert HasAt(BEGIN, BEGIN, 0);
        ContainsInPrefix(TrimLeft(line, Go), BEGIN, BEGIN);
        TrimLeftIsWithin(line, BEGIN);
        LineInText(text, line, BEGIN);
      }
    }
  }

  // ---- Main results ------------------------------------------------------------------------------------

  /** Neither marker is in the text: the first nowhere at all, the second not as a line of its own. */
  ghost predicate IsClean(text: string) {
    !Contains(text, BEGIN) && NoEnd(Split(text))
  }

  /** Adding the hook and removing it leaves the text and one newline, exactly when no marker was there before. */
  lemma RemoveUndoesEnsure(text: string)
    ensures Removed(Ensured(text)) == text + "\n" <==> IsClean(text)
  {
    hide Contains, IsBegin, IsEnd, Split, WithoutEnds, Join;
    var lines := Split(text);
    SplitAfter(text, "");
    SplitOneLine("");
    assert text + "\n" + "" == text + "\n";
    JoinSplit(text + "\n");
    if Contains(text, BEGIN) {
      KeptIsNoLonger(lines, |lines|);
      DifferentLines(Kept(lines, |lines|), text + "\n");
    } else {
      NoMarkerInText(text);
      SplitAfter(text, BLOCK);
      KeptBeforeBlock(lines);
      DifferentLines(WithoutEnds(lines) + [""], text + "\n");
      if NoEnd(lines) {
        assert WithoutEnds(lines) == lines;
      } else {
        assert WithoutEnds(lines) != lines;
        assert (WithoutEnds(lines) + [""])[..|WithoutEnds(lines)|] == WithoutEnds(lines);
        assert (lines + [""])[..|lines|] == lines;
      }
    }
  }

  lemma {:induction false} KeptIsNoLonger(lines: seq<string>, n: nat)
    requires n <= |lines|
    ensures |Kept(lines, n)| <= n
  {
    if n > 0 {
      KeptIsNoLonger(lines, n - 1);
    }
  }

  /** Lines that are not those of a text with a newline in it do not join to it. */
  lemma DifferentLines(lines: seq<string>, text: string)
    requires forall line | line in lines :: '\n' !in line
    requires text != []
    ensures lines != Split(text) ==> Join(lines) != text
  {
    if lines != [] {
      SplitJoin(lines);
    }
  }

  lemma EnsureIsIdempotent(text: string)
    ensures Ensured(Ensured(text)) == Ensured(text)
  {
    var longer := text + "\n" + BLOCK;
    assert BLOCK[..|BEGIN|] == BEGIN;
    assert longer[|text| + 1..] == BLOCK;
    assert longer[|text| + 1..|text| + 1 + |BEGIN|] == BEGIN;
    assert HasAt(longer, BEGIN, |text| + 1);
  }

  lemma {:induction false} KeptAll(lines: seq<string>)
    requires NoBegin(lines) && NoEnd(lines)
    ensures Kept(lines, |lines|) == lines
  {
    KeptWithoutBegin(lines, [], |lines|);
    assert lines + [] == lines && lines[..|lines|] == lines;
  }

  lemma RemoveIsIdempotent(text: string)
    ensures Removed(Removed(text)) == Removed(text)
  {
    hide IsBegin, IsEnd, Inside;
    var kept := Kept(Split(text), |Split(text)|);
    if kept == [] {
      MarkersAreMarkers();
      KeptAll([""]);
    } else {
      SplitJoin(kept);
      KeptAll(kept);
    }
  }

  function Newlines(n: nat): string {
    seq(n, _ => '\n')
  }

  /** What n rounds of installing and uninstalling make of the file. */
  function Rounds(text: string, n: nat): string {
    if n == 0 then text else Removed(Ensured(Rounds(text, n - 1)))
  }

  lemma {:induction false} StaysClean(text: string, n: nat)
    ensures IsClean(text) ==> IsClean(text + Newlines(n))
  {
    hide *;
    NewlinesNext(text, n);
    if n > 0 {
      StaysClean(text, n - 1);
      OneMoreNewline(text + Newlines(n - 1));
    }
  }

  /** Each round of installing and uninstalling leaves one more newline behind, and nothing else. */
  lemma {:induction false} RoundsAddNewlines(text: string, n: nat)
    ensures IsClean(text) ==> Rounds(text, n) == text + Newlines(n)
  {
    hide *;
    NewlinesNext(text, n);
    NextRound(text, n);
    if n > 0 {
      RoundsAddNewlines(text, n - 1);
      StaysClean(text, n - 1);
      RemoveUndoesEnsure(text + Newlines(n - 1));
    }
  }

  lemma NewlinesNext(text: string, n: nat)
    ensures text + Newlines(n) == if n == 0 then text else text + Newlines(n - 1) + "\n"
  {}

  lemma NextRound(text: string, n: nat)
    ensures Rounds(text, n) == if n == 0 then text else Removed(Ensured(Rounds(text, n - 1)))
  {}

  lemma OneMoreNewline(text: string)
    ensures IsClean(text) ==> IsClean(text + "\n")
  {
    SplitAfter(text, "");
    SplitOneLine("");
    MarkersAreMarkers();
    assert text + "\n" + "" == text + "\n";
    MarkersAreLines();
    if Contains(text + "\n", BEGIN) {
      ContainsBeforeNewline(text, BEGIN);
    }
  }

  lemma ContainsBeforeNewline(text: string, t: string)
    requires OneLine(t) && t != [] && Contains(text + "\n", t)
    ensures Contains(text, t)
  {
    var longer := text + "\n";
    var i :| 0 <= i <= |longer| && HasAt(longer, t, i);
    assert longer[i + |t| - 1] == t[|t| - 1] && t[|t| - 1] in t;
    assert text[i..i + |t|] == longer[i..i + |t|];
    assert HasAt(text, t, i);
  }
}
