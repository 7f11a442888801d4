/**
 * The command-line service of lib/services/cli/cli.c.
 *
 * Bytes from the UART are echoed and collected into a 64-character line
 * buffer; CR or LF ends the line, which is copied into a local buffer, split
 * in place into whitespace-separated tokens, and dispatched to the first
 * registered command whose name equals the first token. Registered handlers
 * are code outside the model: an invocation is recorded with the arguments
 * it receives. Output goes through the logger of log.c.
 */
module Cli {
  import opened Common
  import Log

  /** CLI_COMMANDS_MAX, also the argument cap CliProcessLine passes to SplitLine. */
  const COMMANDS_MAX: nat := 10
  /** sizeof(m_cmd) and sizeof(buff). */
  const LINE_SIZE: nat := 64
  const UNKNOWN: string := "Unknown command: %s\r\n"

  /** A CliCommand_t entry. */
  datatype Command = Command(name: string, handler: CallbackId, help: string)

  /** A call of a registered handler with (argc, argv), argv read as strings. */
  datatype Invocation = Invocation(handler: CallbackId, argc: nat, argv: seq<string>)

  /** The whitespace SplitLine cuts at. */
  predicate IsSpace(c: char)
  {
    c == ' ' || c == '\t' || c == '\r' || c == '\n'
  }

  /** Position i begins a token: not whitespace, and at the start or after whitespace. */
  predicate IsStart(s: string, i: nat)
    requires i < |s|
  {
    !IsSpace(s[i]) && (i == 0 || IsSpace(s[i - 1]))
  }

  /** The token starts among the first p characters, in order. */
  function StartsUpTo(s: string, p: nat): (r: seq<nat>)
    requires p <= |s|
    ensures forall k :: 0 <= k < |r| ==> r[k] < p
  {
    if p == 0 then [] else StartsUpTo(s, p - 1) + (if IsStart(s, p - 1) then [p - 1] else [])
  }

  /** The first m elements of xs, or all of them. */
  function Take(xs: seq<nat>, m: nat): (r: seq<nat>)
    ensures |r| == if |xs| <= m then |xs| else m
  {
    if |xs| <= m then xs else xs[..m]
  }

  /** The line after SplitLine has walked its first p characters: each whitespace among them is a NUL. */
  function Blanked(s: string, p: nat): (r: string)
    requires p <= |s|
    ensures |r| == |s|
  {
    seq(|s|, i requires 0 <= i < |s| => if i < p && IsSpace(s[i]) then '\0' else s[i])
  }

  /** The C string at offset a of t. */
  function Word(t: string, a: nat): string
    requires a <= |t|
  {
    t[a..a + Log.StrLen(t[a..])]
  }

  /**
   * SplitLine: walks the line up to its NUL, turns each whitespace into a
   * NUL and records the start of each token while fewer than maxArgs are
   * recorded. argv holds offsets into the line.
   */
  method SplitLine(line: array<char>, maxArgs: nat) returns (argc: nat, argv: seq<nat>)
    requires '\0' in line[..]
    modifies line
    ensures line[..] == Blanked(old(line[..]), Log.StrLen(old(line[..])))
    ensures argv == Take(StartsUpTo(old(line[..]), Log.StrLen(old(line[..]))), maxArgs)
    ensures argc == |argv|
  {
    ghost var s := line[..];
    ghost var n := Log.StrLen(s);
    StrLenBelow(s);
    argc, argv := 0, [];
    var p := 0;
    var inToken := false;
    while line[p] != '\0'
      invariant p <= n < |s| == line.Length
      invariant line[..] == Blanked(s, p)
      invariant argv == Take(StartsUpTo(s, p), maxArgs) && argc == |argv|
      invariant inToken <==> p > 0 && !IsSpace(s[p - 1]) && |StartsUpTo(s, p)| <= maxArgs
      decreases n - p
    {
      SplitStep(s, p, maxArgs);
      if IsSpace(line[p]) {
        line[p] := '\0';
        inToken := false;
      } else if !inToken {
        if argc < maxArgs {
          argv := argv + [p];
          argc := argc + 1;
          inToken := true;
        }
      }
      p := p + 1;
      assert line[..] == Blanked(s, p);
    }
  }

  /** What one step of SplitLine's walk does to the starts and to the line. */
  lemma SplitStep(s: string, p: nat, maxArgs: nat)
    requires p < |s|
    ensures IsSpace(s[p]) ==> StartsUpTo(s, p + 1) == StartsUpTo(s, p)
    ensures !IsSpace(s[p]) && (p == 0 || IsSpace(s[p - 1])) ==> StartsUpTo(s, p + 1) == StartsUpTo(s, p) + [p]
    ensures !IsSpace(s[p]) && p > 0 && !IsSpace(s[p - 1]) ==> StartsUpTo(s, p + 1) == StartsUpTo(s, p)
    ensures |StartsUpTo(s, p)| < maxArgs ==> Take(StartsUpTo(s, p) + [p], maxArgs) == Take(StartsUpTo(s, p), maxArgs) + [p]
    ensures |StartsUpTo(s, p)| >= maxArgs ==> Take(StartsUpTo(s, p) + [p], maxArgs) == Take(StartsUpTo(s, p), maxArgs)
  {
    var xs := StartsUpTo(s, p);
    if |xs| >= maxArgs {
      assert (xs + [p])[..maxArgs] == xs[..maxArgs];
    }
  }

  /** A string holding a NUL has its C length inside it. */
  lemma StrLenBelow(s: string)
    requires '\0' in s
    ensures Log.StrLen(s) < |s|
  {
  }

  /** A string's C length is the first position holding NUL, when a position holds one. */
  lemma StrLenAt(t: string, k: nat)
    requires k < |t| && t[k] == '\0'
    requires forall i :: 0 <= i < k ==> t[i] != '\0'
    ensures Log.StrLen(t) == k
  {
  }

  /** Token starts are exactly the positions that begin a token. */
  lemma {:induction false} StartsExact(s: string, p: nat, i: nat)
    requires p <= |s|
    ensures i in StartsUpTo(s, p) <==> i < p && IsStart(s, i)
    decreases p
  {
    if p > 0 {
      StartsExact(s, p - 1, i);
    }
  }

  /** Token starts are listed in increasing order. */
  lemma {:induction false} StartsIncrease(s: string, p: nat, a: nat, b: nat)
    requires p <= |s| && a < b < |StartsUpTo(s, p)|
    ensures StartsUpTo(s, p)[a] < StartsUpTo(s, p)[b]
    decreases p
  {
    var prev := StartsUpTo(s, p - 1);
    if b < |prev| {
      StartsIncrease(s, p - 1, a, b);
    } else {
      assert StartsUpTo(s, p)[a] == prev[a];
    }
  }

  /** The end of the run of non-whitespace characters that starts at a, at the latest at n. */
  function RunEnd(s: string, a: nat, n: nat): (e: nat)
    requires a <= n <= |s|
    ensures a <= e <= n
    decreases n - a
  {
    if a == n || IsSpace(s[a]) then a else RunEnd(s, a + 1, n)
  }

  /**
   * After SplitLine, the C string at a token start is that token: the
   * characters up to the next whitespace or the end of the line.
   */
  lemma {:induction false} WordIsToken(s: string, n: nat, a: nat)
    requires n < |s| && s[n] == '\0' && a <= n
    requires forall i :: 0 <= i < n ==> s[i] != '\0'
    ensures Word(Blanked(s, n), a) == s[a..RunEnd(s, a, n)]
    decreases n - a
  {
    var t := Blanked(s, n);
    var e := RunEnd(s, a, n);
    RunChars(s, a, n);
    assert t[e] == '\0';
    forall i | 0 <= i < e - a
      ensures t[a..][i] != '\0'
    {
      assert t[a + i] == s[a + i];
    }
    StrLenAt(t[a..], e - a);
    assert t[a..e] == s[a..e];
  }

  /** Inside a run there is neither whitespace nor NUL, and the run ends at whitespace or at n. */
  lemma {:induction false} RunChars(s: string, a: nat, n: nat)
    requires n < |s| && a <= n
    requires forall i :: 0 <= i < n ==> s[i] != '\0'
    ensures forall i :: a <= i < RunEnd(s, a, n) ==> !IsSpace(s[i]) && s[i] != '\0'
    ensures RunEnd(s, a, n) == n || IsSpace(s[RunEnd(s, a, n)])
    decreases n - a
  {
    if a < n && !IsSpace(s[a]) {
      RunChars(s, a + 1, n);
    }
  }

  /** A token is never empty and holds no whitespace. */
  lemma TokenShape(s: string, n: nat, a: nat)
    requires n < |s| && s[n] == '\0' && a < n && IsStart(s, a)
    requires forall i :: 0 <= i < n ==> s[i] != '\0'
    ensures |Word(Blanked(s, n), a)| >= 1
    ensures forall c :: c in Word(Blanked(s, n), a) ==> !IsSpace(c) && c != '\0'
  {
    WordIsToken(s, n, a);
    RunChars(s, a, n);
    assert RunEnd(s, a, n) == RunEnd(s, a + 1, n);
    var w := s[a..RunEnd(s, a, n)];
    forall c | c in w
      ensures !IsSpace(c) && c != '\0'
    {
      var i :| 0 <= i < |w| && w[i] == c;
      assert w[i] == s[a + i];
    }
  }

  /** strncpy(buff, buffer, 63) followed by the terminator at buff[63] the copy needs. */
  function Copied(src: string): (b: string)
    ensures |b| == LINE_SIZE
  {
    var m := if Log.StrLen(src) < LINE_SIZE - 1 then Log.StrLen(src) else LINE_SIZE - 1;
    src[..m] + seq(LINE_SIZE - m, _ => '\0')
  }

  lemma CopiedHasNul(src: string)
    ensures '\0' in Copied(src) && Log.StrLen(Copied(src)) < LINE_SIZE
  {
    var b := Copied(src);
    assert b[LINE_SIZE - 1] == '\0';
    assert b[LINE_SIZE - 1] in b;
  }

  /** The corrected copy always holds a NUL, and its C string is the source's, cut at 63 characters. */
  lemma CopiedTerminated(src: string)
    ensures Copied(src)[LINE_SIZE - 1] == '\0'
    ensures var m := if Log.StrLen(src) < LINE_SIZE - 1 then Log.StrLen(src) else LINE_SIZE - 1;
      Log.StrLen(Copied(src)) == m && Copied(src)[..m] == src[..m]
  {
    var m := if Log.StrLen(src) < LINE_SIZE - 1 then Log.StrLen(src) else LINE_SIZE - 1;
    var b := Copied(src);
    assert b[m] == '\0';
    forall i | 0 <= i < m
      ensures b[i] != '\0'
    {
      assert b[i] == src[i];
    }
    StrLenAt(b, m);
  }

  /** The copy loop strncpy runs: at most 63 characters up to the NUL, the rest of 63 padded with NUL. */
  method StrnCopy(buff: array<char>, src: string)
    requires buff.Length == LINE_SIZE
    modifies buff
    ensures buff[..LINE_SIZE - 1] == Copied(src)[..LINE_SIZE - 1]
    ensures buff[LINE_SIZE - 1] == old(buff[LINE_SIZE - 1])
  {
    var m := if Log.StrLen(src) < LINE_SIZE - 1 then Log.StrLen(src) else LINE_SIZE - 1;
    var i := 0;
    while i < LINE_SIZE - 1 && i < |src| && src[i] != '\0'
      invariant i <= m
      invariant buff[..i] == src[..i]
      invariant buff[LINE_SIZE - 1] == old(buff[LINE_SIZE - 1])
    {
      buff[i] := src[i];
      i := i + 1;
    }
    assert i == m;
    while i < LINE_SIZE - 1
      invariant m <= i <= LINE_SIZE - 1
      invariant buff[..i] == Copied(src)[..i]
      invariant buff[LINE_SIZE - 1] == old(buff[LINE_SIZE - 1])
    {
      buff[i] := '\0';
      i := i + 1;
    }
  }

  /** CliProcessLine's copy as written: strncpy alone, leaving buff[63] as the stack left it. */
  method CopyAsWritten(buff: array<char>, src: string)
    requires buff.Length == LINE_SIZE
    modifies buff
    ensures buff[..LINE_SIZE - 1] == Copied(src)[..LINE_SIZE - 1]
    ensures buff[LINE_SIZE - 1] == old(buff[LINE_SIZE - 1])
  {
    StrnCopy(buff, src);
  }

  /** The corrected copy: strncpy, then buff[63] set to NUL. */
  method CopyLine(buff: array<char>, src: string)
    requires buff.Length == LINE_SIZE
    modifies buff
    ensures buff[..] == Copied(src)
  {
    StrnCopy(buff, src);
    buff[LINE_SIZE - 1] := '\0';
    assert buff[..] == buff[..LINE_SIZE - 1] + [buff[LINE_SIZE - 1]];
    assert Copied(src) == Copied(src)[..LINE_SIZE - 1] + [Copied(src)[LINE_SIZE - 1]];
  }

  /**
   * As written, a line of 63 characters fills the first 63 places of buff
   * without a NUL, so whenever the uninitialised buff[63] is not NUL the
   * buffer SplitLine walks has no terminator.
   */
  lemma UnterminatedCopy(src: string, before: char, after: string)
    requires |src| == LINE_SIZE - 1 && '\0' !in src && before != '\0'
    requires |after| == LINE_SIZE && after[..LINE_SIZE - 1] == Copied(src + "\0")[..LINE_SIZE - 1]
    requires after[LINE_SIZE - 1] == before
    ensures '\0' !in after
  {
    var t := src + "\0";
    Log.StrLenAll(src);
    StrLenAt(t, |src|);
    assert Copied(t)[..LINE_SIZE - 1] == src;
    forall i | 0 <= i < LINE_SIZE
      ensures after[i] != '\0'
    {
      if i < LINE_SIZE - 1 {
        assert after[i] == src[i];
      }
    }
  }

  /** The C-string length of the copied line. */
  function CopiedLen(text: string): nat
  {
    Log.StrLen(Copied(text))
  }

  /** The tokenised line CliProcessLine hands to the handlers. */
  function Line(text: string): string
  {
    CopiedHasNul(text);
    Blanked(Copied(text), CopiedLen(text))
  }

  /** The argv offsets of CliProcessLine, at most CLI_COMMANDS_MAX. */
  function Args(text: string): seq<nat>
  {
    CopiedHasNul(text);
    Take(StartsUpTo(Copied(text), CopiedLen(text)), COMMANDS_MAX)
  }

  /** The argv strings. */
  function Words(text: string): (ws: seq<string>)
    ensures |ws| == |Args(text)|
  {
    var args := Args(text);
    var t := Line(text);
    seq(|args|, k requires 0 <= k < |args| => Word(t, args[k]))
  }

  /** The name as strcmp reads it. */
  function Name(c: Command): string
  {
    c.name[..Log.StrLen(c.name)]
  }

  /** The first command whose name equals w, or |cmds| when there is none. */
  function FirstMatch(cmds: seq<Command>, w: string): (i: nat)
    ensures i <= |cmds|
  {
    if cmds == [] then 0 else if Name(cmds[0]) == w then 0 else 1 + FirstMatch(cmds[1..], w)
  }

  /** FirstMatch finds the first match, and only a match. */
  lemma {:induction false} FirstMatchExact(cmds: seq<Command>, w: string)
    ensures FirstMatch(cmds, w) < |cmds| ==> Name(cmds[FirstMatch(cmds, w)]) == w
    ensures forall j :: 0 <= j < FirstMatch(cmds, w) ==> Name(cmds[j]) != w
  {
    if cmds != [] && Name(cmds[0]) != w {
      FirstMatchExact(cmds[1..], w);
      forall j | 0 <= j < FirstMatch(cmds, w)
        ensures Name(cmds[j]) != w
      {
        if j > 0 {
          assert cmds[j] == cmds[1..][j - 1];
        }
      }
    }
  }

  /** The state the receive handler and CliProcessLine act on. */
  datatype State = State(pending: string, commands: seq<Command>, calls: seq<Invocation>, out: string)

  /** What CliProcessLine does with the C string `text`. */
  function Process(level: Log.Level, s: State, text: string): State
  {
    var args := Args(text);
    if args == [] then s
    else
      var words := Words(text);
      var i := FirstMatch(s.commands, words[0]);
      if i < |s.commands| then s.(calls := s.calls + [Invocation(s.commands[i].handler, |args|, words)])
      else
        UnknownFits(words[0]);
        s.(out := s.out + Log.Render(level, UNKNOWN, [Log.S(words[0])]))
  }

  lemma UnknownFits(w: string)
    ensures Log.Fits(UNKNOWN, 0, [Log.S(w)], 0)
  {
    assert UNKNOWN[0..17] == "Unknown command: ";
    FitsPlain(UNKNOWN, 0, 17, [Log.S(w)], 0);
    assert Log.Fits(UNKNOWN, 19, [Log.S(w)], 1);
  }

  /** Characters without '%' or NUL need nothing of the arguments. */
  lemma {:induction false} FitsPlain(fmt: string, j: nat, m: nat, args: seq<Log.Arg>, k: nat)
    requires j <= m <= |fmt|
    requires '%' !in fmt[j..m] && '\0' !in fmt[j..m]
    requires Log.Fits(fmt, m, args, k)
    ensures Log.Fits(fmt, j, args, k)
    decreases m - j
  {
    if j < m {
      assert fmt[j..m] == [fmt[j]] + fmt[j + 1..m];
      FitsPlain(fmt, j + 1, m, args, k);
    }
  }

  /** An unknown command is reported with the level's prefix before its name. */
  lemma UnknownMessage(level: Log.Level, w: string)
    requires level != Log.None && '\0' !in w && |w| < 256
    ensures (UnknownFits(w); Log.Render(level, UNKNOWN, [Log.S(w)]) == "Unknown command: " + Log.Prefix(level) + w + "\r\n")
  {
    var args := [Log.S(w)];
    var p := Log.Prefix(level);
    var arg := Log.RenderFrom(level, UNKNOWN, 17, args, 0);
    assert arg == (p + w) + "\r\n" by {
      UnknownTail(level, args);
      Log.RenderStep(level, UNKNOWN, 17, args, 0);
      Log.ItemString(level, UNKNOWN, 17, args, 0);
      Log.MessageWhole(level, w);
    }
    var head := UnknownHead(level, args);
    var u := "Unknown command: ";
    Log.Assoc(u, p + w, "\r\n");
    Log.Assoc(u, p, w);
  }

  lemma UnknownHead(level: Log.Level, args: seq<Log.Arg>) returns (r: string)
    requires Log.Fits(UNKNOWN, 17, args, 0)
    ensures Log.Fits(UNKNOWN, 0, args, 0)
    ensures r == Log.RenderFrom(level, UNKNOWN, 17, args, 0)
    ensures Log.RenderFrom(level, UNKNOWN, 0, args, 0) == "Unknown command: " + r
  {
    assert UNKNOWN[0..17] == "Unknown command: ";
    RenderPlain(level, UNKNOWN, 0, 17, args, 0);
    r := Log.RenderFrom(level, UNKNOWN, 17, args, 0);
  }

  lemma UnknownTail(level: Log.Level, args: seq<Log.Arg>)
    ensures Log.Fits(UNKNOWN, 19, args, |args|)
    ensures Log.RenderFrom(level, UNKNOWN, 19, args, |args|) == "\r\n"
  {
    assert Log.Fits(UNKNOWN, 21, args, |args|);
    RenderPlain(level, UNKNOWN, 19, 21, args, |args|);
    assert UNKNOWN[19..21] == "\r\n";
  }

  /** Characters without '%' are printed as they are. */
  lemma {:induction false} RenderPlain(level: Log.Level, fmt: string, j: nat, m: nat, args: seq<Log.Arg>, k: nat)
    requires j <= m <= |fmt|
    requires '%' !in fmt[j..m] && '\0' !in fmt[j..m]
    requires Log.Fits(fmt, m, args, k)
    ensures Log.Fits(fmt, j, args, k)
    ensures Log.RenderFrom(level, fmt, j, args, k) == fmt[j..m] + Log.RenderFrom(level, fmt, m, args, k)
    decreases m - j
  {
    if j < m {
      var c := fmt[j];
      assert fmt[j..m] == [c] + fmt[j + 1..m];
      RenderPlain(level, fmt, j + 1, m, args, k);
      Log.RenderChar(level, fmt, j, args, k);
      Log.Assoc([c], fmt[j + 1..m], Log.RenderFrom(level, fmt, m, args, k));
    }
  }

  /** A blank or empty line leaves every part of the state as it was. */
  lemma BlankLineIgnored(level: Log.Level, s: State, text: string)
    requires forall i :: 0 <= i < CopiedLen(text) ==> IsSpace(Copied(text)[i])
    ensures Process(level, s, text) == s
  {
    CopiedHasNul(text);
    assert Args(text) == [] by {
      if StartsUpTo(Copied(text), CopiedLen(text)) != [] {
        var a := StartsUpTo(Copied(text), CopiedLen(text))[0];
        StartsExact(Copied(text), CopiedLen(text), a);
      }
    }
  }

  /** A line with a character other than whitespace is always handled: by a command or by the report. */
  lemma NonBlankLineHandled(level: Log.Level, s: State, text: string, i: nat)
    requires i < CopiedLen(text) && !IsSpace(Copied(text)[i])
    ensures Args(text) != []
  {
    var t := Copied(text);
    CopiedHasNul(text);
    var a := FirstStart(t, i);
    StartsExact(t, CopiedLen(text), a);
  }

  /** Going back from a character that is not whitespace reaches the start of its token. */
  lemma {:induction false} FirstStart(t: string, i: nat) returns (a: nat)
    requires i < |t| && !IsSpace(t[i])
    ensures a <= i && IsStart(t, a)
    decreases i
  {
    if i == 0 || IsSpace(t[i - 1]) {
      a := i;
    } else {
      a := FirstStart(t, i - 1);
    }
  }

  /** CliRegisterCommand: applies only while fewer than ten commands are registered. */
  function Registered(cmds: seq<Command>, c: Command): (r: seq<Command>)
    ensures |cmds| < COMMANDS_MAX ==> r == cmds + [c]
    ensures |cmds| >= COMMANDS_MAX ==> r == cmds
  {
    if |cmds| < COMMANDS_MAX then cmds + [c] else cmds
  }

  /** A later registration never takes a name away from the command registered first. */
  lemma {:induction false} RegisterKeepsFirst(cmds: seq<Command>, c: Command, w: string)
    requires FirstMatch(cmds, w) < |cmds|
    ensures FirstMatch(Registered(cmds, c), w) == FirstMatch(cmds, w)
  {
    if |cmds| < COMMANDS_MAX {
      FirstMatchAppend(cmds, c, w);
    }
  }

  lemma {:induction false} FirstMatchAppend(cmds: seq<Command>, c: Command, w: string)
    requires FirstMatch(cmds, w) < |cmds|
    ensures FirstMatch(cmds + [c], w) == FirstMatch(cmds, w)
  {
    if Name(cmds[0]) != w {
      assert (cmds + [c])[1..] == cmds[1..] + [c];
      FirstMatchAppend(cmds[1..], c, w);
    }
  }

  /**
   * LogPrint("%c", ch) sends the character narrowed to 8 bits, at any level
   * but none; a received byte passes the narrowing unchanged.
   */
  lemma EchoRender(level: Log.Level, ch: char)
    ensures Log.Fits("%c", 0, [Log.C(ch as int)], 0)
    ensures Log.Render(level, "%c", [Log.C(ch as int)]) == if level == Log.None then [] else [Log.ByteChar(ch as int)]
    ensures ch as int < 256 ==> Log.ByteChar(ch as int) == ch
  {
    assert Log.Fits("%c", 2, [Log.C(ch as int)], 1);
    if level != Log.None {
      Log.RenderStep(level, "%c", 0, [Log.C(ch as int)], 0);
    }
  }

  /** LogPrint("\r\n") sends CR LF, at any level but none. */
  lemma NewLineRender(level: Log.Level)
    ensures Log.Fits("\r\n", 0, [], 0)
    ensures Log.Render(level, "\r\n", []) == if level == Log.None then [] else "\r\n"
  {
    RenderPlain(level, "\r\n", 0, 2, [], 0);
  }

  /** The receive handler's work on one byte. */
  function Fed(level: Log.Level, s: State, ch: char): State
  {
    EchoRender(level, ch);
    var echoed := s.(out := s.out + Log.Render(level, "%c", [Log.C(ch as int)]));
    if ch == '\r' || ch == '\n' then Ended(level, echoed)
    else if |s.pending| < LINE_SIZE - 1 then echoed.(pending := s.pending + [ch])
    else echoed
  }

  /** The end of a line: CR LF sent, the line terminated and processed, the index back at 0. */
  function Ended(level: Log.Level, s: State): State
  {
    NewLineRender(level);
    var sent := s.(out := s.out + Log.Render(level, "\r\n", []));
    Process(level, sent, s.pending + "\0").(pending := [])
  }

  function FedAll(level: Log.Level, s: State, data: string): State
    decreases |data|
  {
    if data == [] then s else FedAll(level, Fed(level, s, data[0]), data[1..])
  }

  /** Every byte is echoed first: at any level but none exactly that character. */
  lemma Echo(level: Log.Level, s: State, ch: char)
    requires level != Log.None
    ensures |Fed(level, s, ch).out| > |s.out| && Fed(level, s, ch).out[..|s.out| + 1] == s.out + [Log.ByteChar(ch as int)]
  {
    EchoRender(level, ch);
    var es := s.(out := s.out + [Log.ByteChar(ch as int)]);
    var r := Fed(level, s, ch);
    if ch == '\r' || ch == '\n' {
      NewLineRender(level);
      var sent := es.(out := es.out + "\r\n");
      ProcessExtends(level, sent, s.pending + "\0");
      assert r.out[..|sent.out|] == sent.out;
      assert sent.out[..|s.out| + 1] == es.out;
    }
  }

  /** CliProcessLine only adds to the output. */
  lemma ProcessExtends(level: Log.Level, s: State, text: string)
    ensures |Process(level, s, text).out| >= |s.out|
    ensures Process(level, s, text).out[..|s.out|] == s.out
  {
  }

  /** The line never holds more than the 63 characters kept before the terminator. */
  lemma FedBound(level: Log.Level, s: State, ch: char)
    requires |s.pending| < LINE_SIZE
    ensures |Fed(level, s, ch).pending| < LINE_SIZE
  {
  }

  /** Without an end of line, the first 63 characters are kept and the rest dropped. */
  lemma {:induction false} KeepsFirst(level: Log.Level, s: State, data: string)
    requires |s.pending| < LINE_SIZE
    requires forall i :: 0 <= i < |data| ==> data[i] != '\r' && data[i] != '\n'
    ensures var all := s.pending + data;
      FedAll(level, s, data).pending == all[..if |all| < LINE_SIZE - 1 then |all| else LINE_SIZE - 1]
    decreases |data|
  {
    var all := s.pending + data;
    if data == [] {
      assert all == s.pending;
    } else {
      var s1 := Fed(level, s, data[0]);
      KeepsFirst(level, s1, data[1..]);
      var all1 := s1.pending + data[1..];
      if |s.pending| < LINE_SIZE - 1 {
        assert all1 == all;
      } else {
        assert all1 == all[..|s.pending|] + data[1..];
      }
    }
  }

  /** The receive handler's line reaches CliProcessLine with 63 characters after 63 bytes and a CR. */
  lemma LongLineReachesCopy(level: Log.Level, s: State, line: string)
    requires s.pending == [] && |line| == LINE_SIZE - 1
    requires forall i :: 0 <= i < |line| ==> line[i] != '\r' && line[i] != '\n'
    ensures FedAll(level, s, line).pending == line
    ensures Fed(level, FedAll(level, s, line), '\r').pending == []
  {
    KeepsFirst(level, s, line);
    assert s.pending + line == line;
  }

  /** The service's state: m_cmd and m_index, m_cmdList, the handler calls made, and the logger. */
  class Shell {
    const cmd: array<char>
    var index: nat
    var commands: seq<Command>
    var calls: seq<Invocation>
    const logger: Log.Logger

    ghost predicate Valid()
      reads this
    {
      cmd.Length == LINE_SIZE && index < LINE_SIZE && |commands| <= COMMANDS_MAX
    }

    function Abs(): State
      reads this, cmd, logger
      requires Valid()
    {
      State(cmd[..index], commands, calls, logger.out)
    }

    /** The line buffer starts empty and no command is registered. */
    constructor (logger: Log.Logger)
      ensures Valid() && fresh(cmd) && this.logger == logger
      ensures index == 0 && commands == [] && calls == []
    {
      cmd := new char[LINE_SIZE];
      index := 0;
      commands := [];
      calls := [];
      this.logger := logger;
    }

    /** CliRegisterCommand. */
    method RegisterCommand(name: string, handler: CallbackId, help: string)
      requires Valid()
      modifies this`commands
      ensures Valid() && commands == Registered(old(commands), Command(name, handler, help))
    {
      if |commands| < COMMANDS_MAX {
        commands := commands + [Command(name, handler, help)];
      }
    }

    /** CliProcessLine, with the copy terminated. */
    method ProcessLine(buffer: string)
      requires Valid()
      modifies this`calls, logger`out
      ensures Valid()
      ensures var r := Process(logger.level, old(Abs()), buffer);
        calls == r.calls && logger.out == r.out
    {
      var argc, words := Tokenise(buffer);
      if argc == 0 {
        return;
      }
      var i := FindCommand(commands, words[0]);
      if i < |commands| {
        calls := calls + [Invocation(commands[i].handler, argc, words)];
        return;
      }
      UnknownFits(words[0]);
      logger.Print(UNKNOWN, [Log.S(words[0])]);
    }

    /** One byte of OnUartRxCompleted. */
    method Receive(ch: char)
      requires Valid()
      modifies this`index, this`calls, cmd, logger`out
      ensures Valid() && Abs() == Fed(logger.level, old(Abs()), ch)
    {
      EchoRender(logger.level, ch);
      logger.Print("%c", [Log.C(ch as int)]);
      if ch == '\r' || ch == '\n' {
        EndLine();
      } else if index < LINE_SIZE - 1 {
        cmd[index] := ch;
        index := index + 1;
        assert cmd[..index] == old(cmd[..index]) + [ch];
      }
    }

    /** The CR or LF branch of OnUartRxCompleted. */
    method EndLine()
      requires Valid()
      modifies this`index, this`calls, cmd, logger`out
      ensures Valid() && Abs() == Ended(logger.level, old(Abs()))
    {
      NewLineRender(logger.level);
      logger.Print("\r\n", []);
      cmd[index] := '\0';
      assert cmd[..index + 1] == old(cmd[..index]) + "\0";
      ProcessLine(cmd[..index + 1]);
      index := 0;
    }

    /** OnUartRxCompleted: each received byte in turn, taken as a character. */
    method OnUartRxCompleted(data: seq<byte>)
      requires Valid() && |data| < 256
      modifies this`index, this`calls, cmd, logger`out
      ensures Valid() && Abs() == FedAll(logger.level, old(Abs()), Chars(data))
    {
      var i := 0;
      while i < |data|
        invariant i <= |data| && Valid()
        invariant FedAll(logger.level, Abs(), Chars(data)[i..]) == FedAll(logger.level, old(Abs()), Chars(data))
      {
        var ch := (data[i] as int) as char;
        assert Chars(data)[i..] == [ch] + Chars(data)[i + 1..];
        Receive(ch);
        i := i + 1;
      }
    }
  }

  /** The copy into the local buff and SplitLine on it: argc and the argv strings. */
  method Tokenise(buffer: string) returns (argc: nat, words: seq<string>)
    ensures argc == |Args(buffer)| && words == Words(buffer)
  {
    var buff := new char[LINE_SIZE];
    CopyLine(buff, buffer);
    CopiedHasNul(buffer);
    var argv;
    argc, argv := SplitLine(buff, COMMANDS_MAX);
    words := WordsAt(buff[..], argv);
  }

  /** The C strings at each argv offset. */
  function WordsAt(t: string, argv: seq<nat>): (ws: seq<string>)
    requires forall k :: 0 <= k < |argv| ==> argv[k] <= |t|
    ensures |ws| == |argv| && forall k :: 0 <= k < |argv| ==> ws[k] == Word(t, argv[k])
  {
    seq(|argv|, k requires 0 <= k < |argv| => Word(t, argv[k]))
  }

  /** The strcmp loop of CliProcessLine over the registered commands. */
  method FindCommand(commands: seq<Command>, w: string) returns (i: nat)
    ensures i == FirstMatch(commands, w)
  {
    i := 0;
    while i < |commands|
      invariant i <= |commands|
      invariant forall j :: 0 <= j < i ==> Name(commands[j]) != w
    {
      if Name(commands[i]) == w {
        FirstMatchAt(commands, w, i);
        return;
      }
      i := i + 1;
    }
    FirstMatchAt(commands, w, i);
  }

  lemma FirstMatchAt(cmds: seq<Command>, w: string, i: nat)
    requires i <= |cmds| && forall j :: 0 <= j < i ==> Name(cmds[j]) != w
    requires i < |cmds| ==> Name(cmds[i]) == w
    ensures FirstMatch(cmds, w) == i
  {
    FirstMatchExact(cmds, w);
  }
}
