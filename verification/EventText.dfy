/**
 The text of a server-sent event: the daemon prints it, hpclientSD cuts it apart with strtok, which
 writes a NUL over the delimiter it stops at.
 */
module EventText {
  import opened Basics

  const NUL: char := '\0'
  const CUT: char := '<'
  const DATA: string := "data: "
  const ID: string := "br>id: "

  /** The sprintf of server_sent_events_callback. */
  function Print(data: string, id: string): string {
    "data: " + data + "<br>id: " + id + "<br><br>"
  }

  /** s without its leading delimiters. */
  function Skipped(s: string): (k: nat)
    ensures k <= |s| && (k < |s| ==> s[k] != CUT) && forall i | 0 <= i < k :: s[i] == CUT
  {
    if s == "" || s[0] != CUT then 0 else 1 + Skipped(s[1..])
  }

  /** The length of s up to its first delimiter. */
  function TokenLength(s: string): (k: nat)
    ensures k <= |s| && (k < |s| ==> s[k] == CUT) && forall i | 0 <= i < k :: s[i] != CUT
  {
    if s == "" || s[0] == CUT then 0 else 1 + TokenLength(s[1..])
  }

  /** strtok: the next token and the text after the delimiter that ends it. */
  function Tok(s: string): Option<(string, string)> {
    var t := s[Skipped(s)..];
    if t == "" then None
    else
      var n := TokenLength(t);
      Some((t[..n], From(t, n + 1)))
  }

  /** The next token without its first skip characters; None when there is none or it is too short. */
  function Field(s: string, skip: nat): Option<(string, string)> {
    match Tok(s)
    case None => None
    case Some((a, rest)) => if |a| < skip then None else Some((a[skip..], rest))
  }

  /** parse_event; None stands for a missing or too short token, which the code does not check for. */
  function Parse(text: string): Option<(string, string)> {
    match Field(text, |DATA|)
    case None => None
    case Some((data, rest)) =>
      match Field(rest, |ID|)
      case None => None
      case Some((id, _)) => Some((data, id))
  }

  lemma TokAt(s: string, a: string, rest: string)
    requires s == a + "<" + rest && a != "" && CUT !in a
    ensures Tok(s) == Some((a, rest))
  {
    assert s[0] == a[0] && a[0] in a;
    assert Skipped(s) == 0 && s[0..] == s;
    var n := TokenLength(s);
    assert s[|a|] == CUT;
    forall i | 0 <= i < |a| ensures s[i] != CUT {
      assert s[i] == a[i] && a[i] in a;
    }
    assert s[..|a|] == a && s[|a| + 1..] == rest;
  }

  lemma FieldAt(s: string, prefix: string, a: string, rest: string)
    requires s == prefix + a + "<" + rest && prefix != "" && CUT !in prefix && CUT !in a
    ensures Field(s, |prefix|) == Some((a, rest))
  {
    hide Tok;
    TokAt(s, prefix + a, rest);
    assert (prefix + a)[|prefix|..] == a;
  }

  lemma FieldIsClean(s: string, skip: nat)
    ensures Field(s, skip).Some? ==> CUT !in Field(s, skip).value.0
  {
  }

  lemma PrintedParses(data: string, id: string)
    requires CUT !in data && CUT !in id
    ensures Parse(Print(data, id)) == Some((data, id))
  {
    hide Field;
    var rest := ID + id + "<" + "br><br>";
    assert "<br>id: " == "<" + ID && "<br><br>" == "<" + "br><br>";
    assert Print(data, id) == DATA + data + "<" + rest;
    FieldAt(Print(data, id), DATA, data, rest);
    FieldAt(rest, ID, id, "br><br>");
  }

  lemma ParsedIsClean(text: string)
    ensures Parse(text).Some? ==> CUT !in Parse(text).value.0 && CUT !in Parse(text).value.1
  {
    hide Field;
    FieldIsClean(text, |DATA|);
    if Field(text, |DATA|).Some? {
      FieldIsClean(Field(text, |DATA|).value.1, |ID|);
    }
  }

  /** Parsing a printed event gives back data and id exactly when neither contains '<'. */
  lemma ParsePrint(data: string, id: string)
    ensures Parse(Print(data, id)) == Some((data, id)) <==> CUT !in data && CUT !in id
  {
    hide Parse, Print;
    ParsedIsClean(Print(data, id));
    if CUT !in data && CUT !in id {
      PrintedParses(data, id);
    }
  }

  // ---------------------------------------------------------------- in place

  /** The text from k up to the NUL at end. */
  ghost predicate TextAt(buf: array<char>, k: nat, end: nat)
    reads buf
  {
    k <= end < buf.Length && buf[end] == NUL && forall i | k <= i < end :: buf[i] != NUL
  }

  /** strspn(buf + from, "<"). */
  method SkipDelimiters(buf: array<char>, from: nat, ghost end: nat) returns (token: nat)
    requires TextAt(buf, from, end)
    ensures token == from + Skipped(buf[from..end])
  {
    token := from;
    while buf[token] == CUT
      invariant from <= token <= end && forall i | from <= i < token :: buf[i] == CUT
      decreases end - token
    {
      token := token + 1;
    }
    SkippedIs(buf[from..end], token - from);
  }

  /** strcspn(buf + from, "<"), as a position. */
  method FindDelimiter(buf: array<char>, from: nat, ghost end: nat) returns (stop: nat)
    requires TextAt(buf, from, end)
    ensures stop == from + TokenLength(buf[from..end])
  {
    stop := from;
    while buf[stop] != CUT && buf[stop] != NUL
      invariant from <= stop <= end && forall i | from <= i < stop :: buf[i] != CUT
      decreases end - stop
    {
      stop := stop + 1;
    }
    TokenLengthIs(buf[from..end], stop - from);
  }

  /** What strtok leaves: the token ends in its own NUL at stop, the rest starts at save. */
  ghost predicate Split(buf: array<char>, from: nat, end: nat, token: nat, stop: nat, save: nat, r: (string, string))
    reads buf
  {
    && from <= token <= stop <= save <= end < buf.Length
    && TextAt(buf, token, stop) && buf[token..stop] == r.0
    && TextAt(buf, save, end) && buf[save..end] == r.1
  }

  /** strtok(buf + from, "<"): token is the start, stop the NUL that ends it, save where to go on. */
  method Strtok(buf: array<char>, from: nat, ghost end: nat) returns (found: bool, token: nat, stop: nat, save: nat)
    requires TextAt(buf, from, end)
    modifies buf
    ensures found == Tok(old(buf[from..end])).Some?
    ensures found ==> Split(buf, from, end, token, stop, save, Tok(old(buf[from..end])).value)
  {
    hide Skipped, TokenLength;
    ghost var s := buf[from..end];
    token := SkipDelimiters(buf, from, end);
    stop, save, found := token, token, buf[token] != NUL;
    ghost var t := buf[token..end];
    assert t == s[Skipped(s)..];
    if found {
      stop := FindDelimiter(buf, token, end);
      save := stop;
      if buf[stop] == CUT {
        buf[stop] := NUL;
        save := stop + 1;
      }
      assert buf[token..stop] == t[..stop - token];
      assert buf[save..end] == From(t, stop - token + 1);
    }
  }

  lemma {:induction false} SkippedIs(s: string, k: nat)
    requires k <= |s| && (k < |s| ==> s[k] != CUT) && forall i | 0 <= i < k :: s[i] == CUT
    ensures Skipped(s) == k
  {
  }

  lemma {:induction false} TokenLengthIs(s: string, k: nat)
    requires k <= |s| && (k < |s| ==> s[k] == CUT) && forall i | 0 <= i < k :: s[i] != CUT
    ensures TokenLength(s) == k
  {
  }

  /** One strtok of parse_event and the strcpy of what follows the token's first skip characters. */
  method CopyField(buf: array<char>, from: nat, skip: nat, ghost end: nat) returns (r: Option<string>, save: nat)
    requires TextAt(buf, from, end)
    modifies buf
    ensures var f := Field(old(buf[from..end]), skip);
            && r.Some? == f.Some?
            && (f.Some? ==> r.value == f.value.0 && TextAt(buf, save, end) && buf[save..end] == f.value.1)
  {
    var found, token, stop;
    found, token, stop, save := Strtok(buf, from, end);
    if !found || stop - token < skip {
      return None, save;
    }
    assert buf[token + skip..stop] == buf[token..stop][skip..];
    r := Some(buf[token + skip..stop]);
  }

  /** parse_event on its buffer. */
  method ParseEvent(buf: array<char>, ghost end: nat) returns (r: Option<(string, string)>)
    requires TextAt(buf, 0, end)
    modifies buf
    ensures r == Parse(old(buf[0..end]))
  {
    hide Field;
    var data, save := CopyField(buf, 0, |DATA|, end);
    if data == None {
      return None;
    }
    var id, _ := CopyField(buf, save, |ID|, end);
    r := if id == None then None else Some((data.value, id.value));
  }
}
