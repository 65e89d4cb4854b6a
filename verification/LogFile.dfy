/**
 The circular log of hpd_log.c: lines are written over the file from a fixed offset behind the header
 and the position wraps back there when the next line would not fit.
 */
module LogFile {
  import opened Basics

  datatype Status = Success | Failed | FileMissing

  /** HPD_LOG_NO_LOG, HPD_LOG_ONLY_REQUESTS and HPD_LOG_ALL. */
  const NO_LOG: nat := 0

  const FGETS_MAX: nat := 255

  const VERSION: string := "#Version: 1.0"
  const FIELDS: string :=
    "#Fields: date time " + "x-error-string " + "c-ip cs-method " + "cs-uri-stem " + "cs-uri-query"

  /** pos and initial_pos are offsets into the file. */
  datatype LogState = LogState(file: string, pos: nat)

  function Overwrite(file: string, at: nat, text: string): string
    requires at <= |file|
  {
    file[..at] + text + From(file, at + |text|)
  }

  /** set_position_for_new_message: the newline is not counted. */
  function Position(pos: nat, initial: nat, max: nat, size: nat): nat {
    if pos + size > max then initial else pos
  }

  function Write(s: LogState, initial: nat, max: nat, message: string): LogState
    requires initial <= |s.file| && s.pos <= |s.file|
  {
    var at := Position(s.pos, initial, max, |message|);
    LogState(Overwrite(s.file, at, message + "\n"), at + |message| + 1)
  }

  /** The header lines create_hpd_log writes to a new file. */
  function Header(date: string): string {
    VERSION + "\n" + ("#Date: " + date) + "\n" + FIELDS + "\n"
  }

  /** Where fgets with a 256 byte buffer stops when it starts at k. */
  function AfterLine(file: string, k: nat, read: nat): (e: nat)
    requires k <= |file| && read <= FGETS_MAX
    ensures k <= e <= |file| && e - k <= FGETS_MAX - read
    ensures forall i | k <= i < e - 1 :: file[i] != '\n'
    ensures k < |file| && read < FGETS_MAX ==> k < e
    ensures e == |file| || e - k == FGETS_MAX - read || (k < e && file[e - 1] == '\n')
    decreases |file| - k
  {
    if k == |file| || read == FGETS_MAX then k
    else if file[k] == '\n' then k + 1
    else AfterLine(file, k + 1, read + 1)
  }

  /** Where the log goes on in an existing file: behind three lines as fgets reads them. */
  function Initial(file: string): nat {
    AfterLine(file, AfterLine(file, AfterLine(file, 0, 0), 0), 0)
  }

  class HpdLog {
    var file: Option<string>
    const max: nat
    var pos: nat
    const initial: nat
    var level: nat
    var events: seq<string>
    /** The file as it was when the log was opened. */
    ghost const file0: string

    /** The file is what writing the logged messages makes of file0. */
    ghost predicate Valid()
      reads this
    {
      && initial <= |file0|
      && (file.Some? ==> LogState(file.value, pos) == After(file0, initial, max, events))
    }

    /** create_hpd_log: a new file gets the header; in an existing one three lines are read. */
    constructor (existing: Option<string>, date: string, max: nat, level: nat)
      ensures Valid() && this.max == max && this.level == level && events == [] && pos == initial && file.Some?
      ensures existing == None ==> file.value == Header(date) && initial == |Header(date)|
      ensures file == Some(file0) && (existing.Some? ==> file == existing)
      ensures existing.Some? ==> initial == Initial(existing.value)
    {
      var f, start;
      if existing == None {
        f := Header(date);
        start := |f|;
      } else {
        f := existing.value;
        start := AfterLine(f, 0, 0);
        start := AfterLine(f, start, 0);
        start := AfterLine(f, start, 0);
      }
      file, this.max, pos, initial, this.level, events := Some(f), max, start, start, level, [];
      file0 := f;
    }

    method SetPositionForNewMessage(size: nat)
      modifies this`pos
      ensures pos == Position(old(pos), initial, max, size)
    {
      if pos + size > max {
        pos := initial;
      }
    }

    /** fprintf at pos, and fgetpos. */
    method PrintLine(line: string)
      requires file.Some? && pos <= |file.value|
      modifies this`file, this`pos
      ensures file == Some(Overwrite(old(file.value), old(pos), line)) && pos == old(pos) + |line|
    {
      var rest := if pos + |line| < |file.value| then file.value[pos + |line|..] else "";
      file, pos := Some(file.value[..pos] + line + rest), pos + |line|;
    }

    /** Log, with the message already formatted. */
    method Log(logLevel: nat, message: string) returns (status: Status)
      requires Valid()
      modifies this
      ensures Valid()
      ensures status == Success && level != NO_LOG ==>
                old(file).Some? && file == Some(Write(LogState(old(file).value, old(pos)), initial, max, message).file)
                && pos == Write(LogState(old(file).value, old(pos)), initial, max, message).pos
                && events == old(events) + [message]
      ensures status != Success || level == NO_LOG ==> file == old(file) && pos == old(pos) && events == old(events)
      ensures status == (if level == NO_LOG then Success else if old(file) == None then FileMissing
                         else if logLevel <= level then Success else Failed)
      ensures level == old(level)
    {
      if level == NO_LOG {
        return Success;
      }
      if file == None {
        return FileMissing;
      }
      if logLevel <= level {
        hide After;
        AfterGrow(file0, initial, max, events, message);
        SetPositionForNewMessage(|message|);
        PrintLine(message + "\n");
        events := events + [message];
        return Success;
      }
      status := Failed;
    }
  }

  // ---------------------------------------------------------------- runs

  function Lines(ms: seq<string>): string {
    if ms == [] then "" else Lines(ms[..|ms| - 1]) + ms[|ms| - 1] + "\n"
  }

  /** The messages written since the last wrap, from their sizes alone. */
  function Since(initial: nat, max: nat, ms: seq<string>): seq<string> {
    if ms == [] then []
    else
      var s, m := Since(initial, max, ms[..|ms| - 1]), ms[|ms| - 1];
      if initial + |Lines(s)| + |m| > max then [m] else s + [m]
  }

  /** The log after writing ms to a file that starts with a header of length initial. */
  ghost function After(file0: string, initial: nat, max: nat, ms: seq<string>): (s: LogState)
    requires initial <= |file0|
    ensures initial <= s.pos <= |s.file|
  {
    if ms == [] then LogState(file0, initial)
    else Write(After(file0, initial, max, ms[..|ms| - 1]), initial, max, ms[|ms| - 1])
  }

  lemma {:induction false} AfterGrow(file0: string, initial: nat, max: nat, ms: seq<string>, m: string)
    requires initial <= |file0|
    ensures After(file0, initial, max, ms + [m]) == Write(After(file0, initial, max, ms), initial, max, m)
  {
    assert (ms + [m])[..|ms|] == ms;
  }

  /** The file as the last wrap found it. */
  ghost function AtWrap(file0: string, initial: nat, max: nat, ms: seq<string>): string
    requires initial <= |file0|
  {
    if ms == [] then file0
    else
      var before := ms[..|ms| - 1];
      if initial + |Lines(Since(initial, max, before))| + |ms[|ms| - 1]| > max
      then After(file0, initial, max, before).file
      else AtWrap(file0, initial, max, before)
  }

  /** The header, the lines since the last wrap, then what that wrap found beyond them. */
  ghost predicate Shaped(s: LogState, header: string, since: string, base: string) {
    && |header| <= |base| && base[..|header|] == header
    && s.pos == |header| + |since|
    && s.file == header + since + From(base, s.pos)
  }

  lemma FreshIsShaped(file0: string, initial: nat)
    requires initial <= |file0|
    ensures Shaped(LogState(file0, initial), file0[..initial], "", file0)
  {
    assert file0 == file0[..initial] + "" + From(file0, initial);
  }

  lemma ShapedHeader(s: LogState, header: string, since: string, base: string)
    requires Shaped(s, header, since, base)
    ensures s.pos == |header| + |since| && s.pos <= |s.file|
    ensures s.file[..|header|] == header && s.file[..s.pos] == header + since
    ensures From(s.file, s.pos) == From(base, s.pos)
  {
    assert s.file == (header + since) + From(base, s.pos);
  }

  lemma WrapIsShaped(s: LogState, header: string, since: string, base: string, max: nat, m: string)
    requires Shaped(s, header, since, base) && s.pos <= |s.file| && |header| <= |s.file| && s.pos + |m| > max
    ensures Shaped(Write(s, |header|, max, m), header, m + "\n", s.file)
  {
    ShapedHeader(s, header, since, base);
  }

  lemma FromTwice(s: string, t: string, a: nat, k: nat)
    requires a <= |s| && From(s, a) == t
    ensures From(s, a + k) == From(t, k)
  {
  }

  lemma FromBeyond(s: string, t: string, a: nat, k: nat)
    requires From(s, a) == From(t, a)
    ensures From(s, a + k) == From(t, a + k)
  {
    if a <= |s| && a <= |t| {
      FromTwice(s, From(s, a), a, k);
      FromTwice(t, From(t, a), a, k);
    }
  }

  lemma GrowIsShaped(s: LogState, header: string, since: string, base: string, max: nat, m: string)
    requires Shaped(s, header, since, base) && s.pos <= |s.file| && |header| <= |s.file| && s.pos + |m| <= max
    ensures Shaped(Write(s, |header|, max, m), header, since + (m + "\n"), base)
  {
    ShapedHeader(s, header, since, base);
    hide From;
    FromBeyond(s.file, base, s.pos, |m| + 1);
    Assoc(header, since, m + "\n");
    assert |s.file| >= s.pos && s.file[..s.pos] == header + since;
  }

  lemma {:induction false} LinesGrow(ms: seq<string>, m: string)
    ensures Lines([]) == "" && Lines(ms + [m]) == Lines(ms) + (m + "\n") && Lines([m]) == m + "\n"
  {
    assert (ms + [m])[..|ms|] == ms;
    assert Lines([m]) == Lines([]) + m + "\n";
    assert Lines(ms) + m + "\n" == Lines(ms) + (m + "\n");
  }

  /**
   After any messages: the header untouched, the lines since the last wrap, then what the last wrap
   found beyond them; and the write position is the end of those lines.
   */
  lemma {:induction false} FileShape(file0: string, initial: nat, max: nat, ms: seq<string>)
    requires initial <= |file0|
    ensures Shaped(After(file0, initial, max, ms), file0[..initial], Lines(Since(initial, max, ms)),
                   AtWrap(file0, initial, max, ms))
  {
    hide Shaped, Write, Lines, From;
    if ms == [] {
      FreshIsShaped(file0, initial);
      LinesGrow([], "");
    } else {
      var before, m := ms[..|ms| - 1], ms[|ms| - 1];
      FileShape(file0, initial, max, before);
      var s, header := After(file0, initial, max, before), file0[..initial];
      var since, base := Since(initial, max, before), AtWrap(file0, initial, max, before);
      LinesGrow(since, m);
      ShapedHeader(s, header, Lines(since), base);
      if s.pos + |m| > max {
        WrapIsShaped(s, header, Lines(since), base, max, m);
      } else {
        GrowIsShaped(s, header, Lines(since), base, max, m);
      }
    }
  }

  lemma SuffixGrows<E>(s: seq<E>, t: seq<E>, x: E)
    requires |t| <= |s| && s[|s| - |t|..] == t
    ensures (s + [x])[|s| - |t|..] == t + [x] && (s + [x])[|s|..] == [x]
  {
  }

  /** The lines since the last wrap are the latest ones. */
  lemma {:induction false} SinceIsSuffix(initial: nat, max: nat, ms: seq<string>)
    ensures var since := Since(initial, max, ms); |since| <= |ms| && ms[|ms| - |since|..] == since
  {
    if ms != [] {
      var before, m := ms[..|ms| - 1], ms[|ms| - 1];
      SinceIsSuffix(initial, max, before);
      var s := Since(initial, max, before);
      assert Since(initial, max, ms) == if initial + |Lines(s)| + |m| > max then [m] else s + [m];
      hide Since, Lines;
      SuffixGrows(before, s, m);
      assert ms == before + [m];
    }
  }

  /** A write stays within max + 1 exactly when the message fits where it goes. */
  lemma PositionBoundIff(s: LogState, initial: nat, max: nat, m: string)
    requires initial <= |s.file| && s.pos <= |s.file|
    ensures Write(s, initial, max, m).pos <= max + 1 <==> s.pos + |m| <= max || initial + |m| <= max
  {
  }

  /** When every message fits behind the header, the position never exceeds max + 1. */
  lemma {:induction false} PositionBounded(file0: string, initial: nat, max: nat, ms: seq<string>)
    requires initial <= |file0| && initial <= max + 1
    requires forall i | 0 <= i < |ms| :: initial + |ms[i]| <= max
    ensures After(file0, initial, max, ms).pos <= max + 1
  {
    if ms != [] {
      PositionBounded(file0, initial, max, ms[..|ms| - 1]);
      PositionBoundIff(After(file0, initial, max, ms[..|ms| - 1]), initial, max, ms[|ms| - 1]);
    }
  }

  // ---------------------------------------------------------------- restarts

  /** A line that fits into the buffer is read as a whole. */
  lemma {:induction false} LineRead(file: string, k: nat, line: string, read: nat)
    requires k + |line| < |file| && file[k..k + |line|] == line && file[k + |line|] == '\n'
    requires '\n' !in line && read + |line| < FGETS_MAX
    ensures AfterLine(file, k, read) == k + |line| + 1
    decreases |line|
  {
    if line != "" {
      assert file[k] == line[0] && file[k + 1..k + |line|] == line[1..];
      LineRead(file, k + 1, line[1..], read + 1);
    }
  }

  predicate PlainDate(date: string) {
    '\n' !in date && |date| <= 247
  }

  /** The line m of a text, and where it is. */
  lemma LineAt(f: string, a: string, m: string, b: string)
    requires f == a + m + "\n" + b
    ensures |a| + |m| < |f| && f[|a|..|a| + |m|] == m && f[|a| + |m|] == '\n'
  {
  }

  lemma FirstLineAt(f: string, m: string, b: string)
    requires f == m + "\n" + b
    ensures |m| < |f| && f[0..|m|] == m && f[|m|] == '\n'
  {
  }

  /** Where the lines of the header are. */
  lemma HeaderLines(date: string, rest: string)
    ensures var f, q := Header(date) + rest, |VERSION| + 1 + |"#Date: " + date|;
            && |Header(date)| == q + 1 + |FIELDS| + 1 <= |f| && f[..|Header(date)|] == Header(date)
            && f[0..|VERSION|] == VERSION && f[|VERSION|] == '\n'
            && f[|VERSION| + 1..q] == "#Date: " + date && f[q] == '\n'
            && f[q + 1..q + 1 + |FIELDS|] == FIELDS && f[q + 1 + |FIELDS|] == '\n'
  {
    var v, d, h := VERSION, "#Date: " + date, FIELDS;
    ThreeLines(v, d, h, rest);
    FirstLineAt(Header(date) + rest, v, d + "\n" + h + "\n" + rest);
    hide Header;
    LineAt(Header(date) + rest, v + "\n", d, h + "\n" + rest);
    LineAt(Header(date) + rest, v + "\n" + d + "\n", h, rest);
  }

  lemma NoNewlines()
    ensures '\n' !in VERSION && '\n' !in FIELDS && |VERSION| == 13 && |FIELDS| < FGETS_MAX
  {
    assert '\n' !in "#Fields: date time " && '\n' !in "x-error-string " && '\n' !in "c-ip cs-method ";
    assert '\n' !in "cs-uri-stem " && '\n' !in "cs-uri-query";
  }

  lemma ThreeLines(v: string, d: string, h: string, rest: string)
    ensures var f := v + "\n" + d + "\n" + h + "\n" + rest;
            && f == v + "\n" + (d + "\n" + h + "\n" + rest)
            && f == (v + "\n") + d + "\n" + (h + "\n" + rest)
            && f == (v + "\n" + d + "\n") + h + "\n" + rest
  {
  }

  /** Reopening a file that starts with a header goes on behind it exactly when the date is one line that fits. */
  lemma ReopenIff(date: string, rest: string)
    ensures Initial(Header(date) + rest) <= |Header(date)|
    ensures Initial(Header(date) + rest) == |Header(date)| <==> PlainDate(date)
  {
    var f, d := Header(date) + rest, "#Date: " + date;
    HeaderLines(date, rest);
    NoNewlines();
    DateLine(date);
    hide AfterLine, Header;
    LineRead(f, 0, VERSION, 0);
    TwoLines(f, |VERSION| + 1, d, FIELDS);
  }

  lemma DateLine(date: string)
    ensures '\n' in "#Date: " + date <==> '\n' in date
  {
    var d := "#Date: " + date;
    assert d[7..] == date && forall i | 0 <= i < 7 :: d[i] != '\n';
  }

  /** Two lines read from p on: all of them exactly when the first one fits. */
  lemma {:induction false} TwoLines(f: string, p: nat, d: string, h: string)
    requires p + |d| + 1 + |h| < |f| && f[p..p + |d|] == d && f[p + |d|] == '\n'
    requires f[p + |d| + 1..p + |d| + 1 + |h|] == h && f[p + |d| + 1 + |h|] == '\n'
    requires '\n' !in h && |h| < FGETS_MAX
    ensures var e := AfterLine(f, AfterLine(f, p, 0), 0);
            && e <= p + |d| + 1 + |h| + 1
            && (e == p + |d| + 1 + |h| + 1 <==> '\n' !in d && |d| < FGETS_MAX)
  {
    hide AfterLine;
    DateRead(f, d, p, p + |d|);
    LineRead(f, p + |d| + 1, h, 0);
  }

  /** The second line is read up to its end when it fits, and otherwise the third fgets ends no later than there. */
  lemma {:induction false} DateRead(f: string, d: string, p: nat, q: nat)
    requires p <= q == p + |d| && q < |f| && f[p..q] == d && f[q] == '\n'
    ensures '\n' !in d && |d| < FGETS_MAX ==> AfterLine(f, p, 0) == q + 1
    ensures '\n' in d || |d| >= FGETS_MAX ==> AfterLine(f, AfterLine(f, p, 0), 0) <= q + 1
  {
    if '\n' !in d && |d| < FGETS_MAX {
      LineRead(f, p, d, 0);
    } else {
      var e := AfterLine(f, p, 0);
      assert e <= q + 1;
    }
  }

  /** The file after the daemon was restarted on it again and again, each time with a maximum and some messages. */
  ghost function Restarts(file: string, opens: seq<(nat, seq<string>)>): string {
    if opens == [] then file
    else
      var f, last := Restarts(file, opens[..|opens| - 1]), opens[|opens| - 1];
      After(f, Initial(f), last.0, last.1).file
  }

  lemma {:induction false} PlainSurvives(date: string, rest: string, opens: seq<(nat, seq<string>)>)
    requires PlainDate(date)
    ensures Header(date) <= Restarts(Header(date) + rest, opens)
  {
    if opens != [] {
      var f, last := Restarts(Header(date) + rest, opens[..|opens| - 1]), opens[|opens| - 1];
      PlainSurvives(date, rest, opens[..|opens| - 1]);
      assert f == Header(date) + f[|Header(date)|..];
      ReopenIff(date, f[|Header(date)|..]);
      hide Header, Initial, After, Shaped;
      FileShape(f, |Header(date)|, last.0, last.1);
      ShapeStarts(After(f, |Header(date)|, last.0, last.1), f[..|Header(date)|],
                  Lines(Since(|Header(date)|, last.0, last.1)), AtWrap(f, |Header(date)|, last.0, last.1));
    }
  }

  lemma ShapeStarts(s: LogState, header: string, since: string, base: string)
    requires Shaped(s, header, since, base)
    ensures header <= s.file
  {
  }

  /** One message changes a file at the position the log starts from. */
  lemma {:induction false} OneMessage(f: string, initial: nat, max: nat, m: string)
    requires initial < |f| && |m| == 1
    ensures |After(f, initial, max, [m]).file| > initial && After(f, initial, max, [m]).file[initial] == m[0]
  {
    assert [m][..0] == [];
    assert After(f, initial, max, []) == LogState(f, initial);
  }

  /** Over any restarts the header is never overwritten exactly when the date is one line that fits. */
  lemma {:induction false} HeaderSurvivesIff(date: string, rest: string)
    ensures (forall opens :: Header(date) <= Restarts(Header(date) + rest, opens)) <==> PlainDate(date)
  {
    if PlainDate(date) {
      forall opens ensures Header(date) <= Restarts(Header(date) + rest, opens) {
        PlainSurvives(date, rest, opens);
      }
    } else {
      var f := Header(date) + rest;
      ReopenIff(date, rest);
      var i := Initial(f);
      var m := if Header(date)[i] == 'a' then "b" else "a";
      OneMessage(f, i, 0, m);
      var opens := [(0, [m])];
      hide Header, Initial, After;
      assert opens[..0] == [];
      assert Restarts(f, []) == f;
      assert Restarts(f, opens) == After(f, i, 0, [m]).file;
      assert !(Header(date) <= Restarts(f, opens));
    }
  }
}
