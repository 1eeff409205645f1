/** code.c: paths as single tokens of a line. */
module Codes {
  import opened Options

  /** What a character becomes; `shell` is encode_space's "\ " for a space. */
  function Escape(c: char, shell: bool): (r: string)
    ensures 1 <= |r| <= 2
  {
    match c
    case ' ' => if shell then ['\\', ' '] else ['\\', 'b']
    case '\t' => ['\\', 't']
    case '\n' => ['\\', 'n']
    case '\r' => ['\\', 'r']
    case '\\' => ['\\', '\\']
    case _ => [c]
  }

  function Encoded(p: string, shell: bool): (r: string)
    ensures |p| <= |r| <= 2 * |p|
  {
    if p == [] then [] else Encoded(p[..|p| - 1], shell) + Escape(p[|p| - 1], shell)
  }

  /** What an escape stands for; the C code leaves a byte unset for any other. */
  function Unescape(c: char): Option<char> {
    match c
    case 'n' => Some('\n')
    case 't' => Some('\t')
    case 'b' => Some(' ')
    case ' ' => Some(' ')
    case 'r' => Some('\r')
    case '\\' => Some('\\')
    case _ => None
  }

  /** decode from character `i` on; None where the C code's result is not determined. */
  function DecodedFrom(s: string, i: nat): Option<string>
    requires i <= |s|
    decreases |s| - i
  {
    if i == |s| then Some([])
    else if s[i] != '\\' then
      match DecodedFrom(s, i + 1) case None => None case Some(r) => Some([s[i]] + r)
    else if i + 1 == |s| then None
    else
      match (Unescape(s[i + 1]), DecodedFrom(s, i + 2))
      case (Some(c), Some(r)) => Some([c] + r)
      case _ => None
  }

  function Decoded(s: string): Option<string> {
    DecodedFrom(s, 0)
  }

  lemma {:induction false} DecodedAppend(s: string, t: string, i: nat)
    requires i <= |s| && DecodedFrom(s, i).Some?
    ensures DecodedFrom(s + t, i) ==
            match Decoded(t) case None => None case Some(r) => Some(DecodedFrom(s, i).value + r)
    decreases |s| - i
  {
    if i == |s| {
      DecodedShift(s, t, 0);
      if Decoded(t).Some? {
        assert [] + Decoded(t).value == Decoded(t).value;
      }
    } else if s[i] != '\\' {
      DecodedAppend(s, t, i + 1);
      if Decoded(t).Some? {
        var c := [s[i]];
        assert c + (DecodedFrom(s, i + 1).value + Decoded(t).value)
            == (c + DecodedFrom(s, i + 1).value) + Decoded(t).value;
      }
    } else {
      DecodedAppend(s, t, i + 2);
      if Decoded(t).Some? {
        var c := [Unescape(s[i + 1]).value];
        assert c + (DecodedFrom(s, i + 2).value + Decoded(t).value)
            == (c + DecodedFrom(s, i + 2).value) + Decoded(t).value;
      }
    }
  }

  lemma {:induction false} DecodedShift(s: string, t: string, i: nat)
    requires i <= |t|
    ensures DecodedFrom(s + t, |s| + i) == DecodedFrom(t, i)
    decreases |t| - i
  {
    if i < |t| {
      assert (s + t)[|s| + i] == t[i];
      DecodedShift(s, t, i + 1);
      if i + 1 < |t| {
        assert (s + t)[|s| + i + 1] == t[i + 1];
        DecodedShift(s, t, i + 2);
      }
    }
  }

  /** decode undoes both encoders, on every path. */
  lemma {:induction false} DecodeInverts(p: string, shell: bool)
    ensures Decoded(Encoded(p, shell)) == Some(p)
  {
    if p != [] {
      var front, c := p[..|p| - 1], p[|p| - 1];
      DecodeInverts(front, shell);
      DecodedAppend(Encoded(front, shell), Escape(c, shell), 0);
      DecodeEscape(c, shell);
      assert front + [c] == p;
    }
  }

  lemma {:induction false} DecodeEscape(c: char, shell: bool)
    ensures Decoded(Escape(c, shell)) == Some([c])
  {
    var e := Escape(c, shell);
    assert DecodedFrom(e, |e|) == Some([]);
    assert [c] + [] == [c];
  }

  /** Two paths are never written alike. */
  lemma {:induction false} EncodedInjective(p: string, q: string, shell: bool)
    requires Encoded(p, shell) == Encoded(q, shell)
    ensures p == q
  {
    DecodeInverts(p, shell);
    DecodeInverts(q, shell);
  }

  /** How each character is written; the two encoders differ in the blank only. */
  lemma {:induction false} WrittenAs(c: char, shell: bool)
    ensures Encoded([c], shell) ==
            if c == ' ' then (if shell then "\\ " else "\\b")
            else if c == '\t' then "\\t" else if c == '\n' then "\\n" else if c == '\r' then "\\r"
            else if c == '\\' then "\\\\" else [c]
  {
    assert [c][..0] == [] && Encoded([], shell) == [];
    assert [] + Escape(c, shell) == Escape(c, shell);
  }

  /* ---- the loops, through moving pointers into a buffer ---- */

  /** The body of encode_internal's loop. */
  method PutEscaped(c: char, shell: bool, buf: array<char>, at: nat) returns (temp: nat)
    requires at + 2 <= buf.Length
    modifies buf
    ensures at < temp <= at + 2 && buf[..temp] == old(buf[..at]) + Escape(c, shell)
  {
    temp := at;
    if c == ' ' || c == '\t' || c == '\n' || c == '\r' || c == '\\' {
      buf[temp] := '\\';
      temp := temp + 1;
      buf[temp] := if c == ' ' then (if shell then ' ' else 'b') else if c == '\t' then 't'
                   else if c == '\n' then 'n' else if c == '\r' then 'r' else '\\';
    } else {
      buf[temp] := c;
    }
    temp := temp + 1;
    assert buf[at..temp] == Escape(c, shell) && buf[..at] == old(buf[..at]);
    assert buf[..temp] == buf[..at] + buf[at..temp];
  }

  /** encode_internal. */
  method EncodeInternal(line: string, shell: bool, buf: array<char>) returns (n: nat)
    requires 2 * |line| < buf.Length
    modifies buf
    ensures n < buf.Length && buf[..n] == Encoded(line, shell) && buf[n] == '\0'
  {
    var temp, i := 0, 0;
    while i < |line|
      invariant 0 <= i <= |line| && temp <= 2 * i
      invariant buf[..temp] == Encoded(line[..i], shell)
    {
      assert line[..i + 1][..i] == line[..i];
      temp := PutEscaped(line[i], shell, buf, temp);
      i := i + 1;
    }
    assert line[..|line|] == line;
    buf[temp] := '\0';
    n := temp;
  }

  /** `out` is what the first `i` characters stand for, and the rest can be decoded. */
  predicate DecodedTo(line: string, i: nat, out: string) {
    && i <= |line| && DecodedFrom(line, i).Some?
    && Decoded(line) == Some(out + DecodedFrom(line, i).value)
  }

  lemma {:induction false} DecodedOne(line: string, i: nat, out: string)
    requires DecodedTo(line, i, out) && i < |line|
    ensures line[i] != '\\' ==> DecodedTo(line, i + 1, out + [line[i]])
    ensures line[i] == '\\' ==> i + 1 < |line| && Unescape(line[i + 1]).Some? &&
                                DecodedTo(line, i + 2, out + [Unescape(line[i + 1]).value])
  {
    var (next, c) := if line[i] == '\\' then (i + 2, Unescape(line[i + 1]).value) else (i + 1, line[i]);
    var rest := DecodedFrom(line, next).value;
    assert out + ([c] + rest) == (out + [c]) + rest;
  }

  /** decode, on lines it is meant for. */
  method Decode(line: string, buf: array<char>) returns (n: nat)
    requires Decoded(line).Some? && |line| < buf.Length
    modifies buf
    ensures n < buf.Length && buf[..n] == Decoded(line).value && buf[n] == '\0'
  {
    var temp, i := 0, 0;
    assert buf[..0] == [] && [] + Decoded(line).value == Decoded(line).value;
    while i < |line|
      invariant 0 <= i <= |line| && temp <= i && DecodedTo(line, i, buf[..temp])
    {
      DecodedOne(line, i, buf[..temp]);
      ghost var before := buf[..temp];
      var c := line[i];
      if c == '\\' {
        i := i + 1;
        c := Unescape(line[i]).value;
      }
      buf[temp] := c;
      temp := temp + 1;
      i := i + 1;
      assert buf[..temp] == before + [c];
    }
    assert buf[..temp] + [] == buf[..temp];
    buf[temp] := '\0';
    n := temp;
  }
}
