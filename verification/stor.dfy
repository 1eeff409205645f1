/** The pipelined STOR exchange: stor.c and lcreate.c on one side, f_stor on the other,
    over a channel that keeps the order of what it carries. */
module Stores {
  import opened Options

  type Octet = x: int | 0 <= x < 256

  type Octets = seq<Octet>

  const CR: Octet := 13
  const LF: Octet := 10
  const CRLF: Octets := [CR, LF]
  const DOT: Octets := [46]

  /** One file to store: "STOR ..." and the content. */
  datatype Store = Store(desc: Octets, data: Octets)

  /* ---- lines ---- */

  predicate OneLine(l: Octets) {
    forall i :: 0 <= i < |l| ==> l[i] != CR && l[i] != LF
  }

  /** snet_getline: up to the first LF, without it and a CR before it. */
  function GetLineFrom(s: Octets, i: nat): Option<(Octets, Octets)>
    requires i <= |s|
    decreases |s| - i
  {
    if i == |s| then None
    else if s[i] == LF then
      Some((s[..if i > 0 && s[i - 1] == CR then i - 1 else i], s[i + 1..]))
    else GetLineFrom(s, i + 1)
  }

  function GetLine(s: Octets): Option<(Octets, Octets)> {
    GetLineFrom(s, 0)
  }

  lemma {:induction false} LineFromIs(s: Octets, i: nat)
    requires i <= |s| && LF !in s[..i]
    ensures match GetLineFrom(s, i)
            case None => LF !in s
            case Some((l, rest)) =>
              LF !in l && (s == l + [13, 10] + rest || (s == l + [10] + rest && (l == [] || l[|l| - 1] != 13)))
    decreases |s| - i
  {
    if i == |s| {
      assert s[..i] == s;
    } else if s[i] == LF {
      assert s == s[..i] + [10] + s[i + 1..];
      if i > 0 && s[i - 1] == CR {
        assert s[..i] == s[..i - 1] + [13];
      }
    } else {
      assert s[..i + 1] == s[..i] + [s[i]];
      LineFromIs(s, i + 1);
    }
  }

  /** A line ends at the first LF, and a CR before that is not part of it. */
  lemma {:induction false} LineIs(s: Octets)
    ensures match GetLine(s)
            case None => LF !in s
            case Some((l, rest)) =>
              LF !in l && (s == l + [13, 10] + rest || (s == l + [10] + rest && (l == [] || l[|l| - 1] != 13)))
  {
    LineFromIs(s, 0);
  }

  lemma {:induction false} FirstLineFrom(l: Octets, rest: Octets, i: nat)
    requires OneLine(l) && i <= |l|
    ensures GetLineFrom(l + CRLF + rest, i) == Some((l, rest))
    decreases |l| - i
  {
    var s := l + CRLF + rest;
    if i < |l| {
      assert s[i] == l[i];
      FirstLineFrom(l, rest, i + 1);
    } else {
      assert s[i] == CR && s[i + 1] == LF;
      assert s[..i] == l && s[i + 2..] == rest;
      assert GetLineFrom(s, i + 1) == Some((l, rest));
    }
  }

  lemma {:induction false} FirstLine(l: Octets, rest: Octets)
    requires OneLine(l)
    ensures GetLine(l + CRLF + rest) == Some((l, rest))
  {
    FirstLineFrom(l, rest, 0);
  }

  /* ---- decimal numbers ---- */

  function Digits(n: nat): (d: Octets)
    ensures |d| > 0 && forall i :: 0 <= i < |d| ==> 48 <= d[i] <= 57
  {
    (if n < 10 then [] else Digits(n / 10)) + [48 + n % 10]
  }

  predicate IsDigit(x: Octet) {
    48 <= x <= 57
  }

  /** The digits from `i` on, up to the first octet that is none, after `acc`: strtoofft. */
  function ValueFrom(d: Octets, i: nat, acc: nat): nat
    requires i <= |d|
    decreases |d| - i
  {
    if i < |d| && IsDigit(d[i]) then ValueFrom(d, i + 1, 10 * acc + (d[i] - 48)) else acc
  }

  function Value(d: Octets): nat {
    ValueFrom(d, 0, 0)
  }

  lemma {:induction false} ValueAppend(d: Octets, x: Octet, i: nat, acc: nat)
    requires i <= |d| && IsDigit(x) && forall j :: i <= j < |d| ==> IsDigit(d[j])
    ensures ValueFrom(d + [x], i, acc) == 10 * ValueFrom(d, i, acc) + (x - 48)
    decreases |d| - i
  {
    if i < |d| {
      assert (d + [x])[i] == d[i];
      ValueAppend(d, x, i + 1, 10 * acc + (d[i] - 48));
    } else {
      assert ValueFrom(d + [x], i + 1, 10 * acc + (x - 48)) == 10 * acc + (x - 48);
    }
  }

  /** They are decimal: one more digit is ten times as much. */
  lemma {:induction false} DigitsAreDecimal(n: nat, x: nat)
    requires x < 10
    ensures Digits(10 * n + x) == (if n == 0 then [] else Digits(n)) + [48 + x]
  {
  }

  lemma {:induction false} ValueOfDigits(n: nat)
    ensures Value(Digits(n)) == n && OneLine(Digits(n))
  {
    var front := if n < 10 then [] else Digits(n / 10);
    if n >= 10 {
      ValueOfDigits(n / 10);
    }
    ValueAppend(front, 48 + n % 10, 0, 0);
  }

  /* ---- what is sent ---- */

  /** What the server still has to see of a store after its command line. */
  function Body(data: Octets): Octets {
    Digits(|data|) + CRLF + (data + (DOT + CRLF))
  }

  function Encode(s: Store): Octets {
    s.desc + CRLF + Body(s.data)
  }

  /** Command, CR LF, the length in decimal, CR LF, the content, a dot, CR LF. */
  lemma {:induction false} EncodeIs(s: Store)
    ensures Encode(s) == s.desc + [13, 10] + Digits(|s.data|) + [13, 10] + s.data + [46, 13, 10]
  {
    assert DOT + CRLF == [46, 13, 10];
  }

  function EncodeAll(ss: seq<Store>): Octets {
    if ss == [] then [] else Encode(ss[0]) + EncodeAll(ss[1..])
  }

  lemma {:induction false} EncodeAllSnoc(ss: seq<Store>, s: Store)
    ensures EncodeAll(ss + [s]) == EncodeAll(ss) + Encode(s)
  {
    if ss == [] {
      assert (ss + [s])[1..] == [];
    } else {
      assert (ss + [s])[1..] == ss[1..] + [s];
      EncodeAllSnoc(ss[1..], s);
      assert Encode(ss[0]) + (EncodeAll(ss[1..]) + Encode(s)) == (Encode(ss[0]) + EncodeAll(ss[1..])) + Encode(s);
    }
  }

  /** stor_file, after the checks on the file: the content goes out in pieces. */
  method StorFile(sn: Octets, s: Store) returns (sn': Octets)
    ensures sn' == sn + Encode(s)
  {
    sn' := sn + s.desc + CRLF;
    sn' := sn' + Digits(|s.data|) + CRLF;
    var head, size := sn', |s.data|;
    while size > 0
      invariant 0 <= size <= |s.data|
      invariant sn' == head + s.data[..|s.data| - size]
    {
      var done := |s.data| - size;
      var rr := if size < 8192 then size else 8192;
      sn' := sn' + s.data[done..done + rr];
      assert s.data[..done] + s.data[done..done + rr] == s.data[..done + rr];
      size := size - rr;
    }
    sn' := sn' + DOT + CRLF;
    assert s.data[..|s.data|] == s.data;
    assert sn' == sn + Encode(s);
  }

  /** n_stor_file: a file of a negative transcript goes up empty. */
  method NStorFile(sn: Octets, desc: Octets) returns (sn': Octets)
    ensures sn' == sn + Encode(Store(desc, []))
  {
    sn' := sn + desc + CRLF + [48] + CRLF + DOT + CRLF;
    assert Digits(0) == [48];
    assert sn' == sn + Encode(Store(desc, []));
  }

  /* ---- the server's side of one store ---- */

  /** What f_stor makes of the rest of the exchange: the content and what follows it. */
  function Received(sn: Octets): Option<(Octets, Octets)> {
    match GetLine(sn)
    case None => None
    case Some((size, rest)) =>
      var len := Value(size);
      if len > |rest| then None
      else
        match GetLine(rest[len..])
        case None => None
        case Some((line, rest')) => if line == DOT then Some((rest[..len], rest')) else None
  }

  /** Length framing: whatever the bytes of the content are, they arrive as they were. */
  lemma {:induction false} BodyReceived(data: Octets, rest: Octets)
    ensures Received(Body(data) + rest) == Some((data, rest))
  {
    ValueOfDigits(|data|);
    var tail := data + (DOT + CRLF + rest);
    assert Body(data) + rest == Digits(|data|) + CRLF + tail;
    FirstLine(Digits(|data|), tail);
    assert tail[..|data|] == data && tail[|data|..] == DOT + CRLF + rest;
    FirstLine(DOT, rest);
  }

  /** Nothing else is received: a length, that many octets, and a line with one dot. */
  lemma {:induction false} ReceivedMeans(sn: Octets, data: Octets, rest: Octets)
    requires Received(sn) == Some((data, rest))
    ensures GetLine(sn).Some? && Value(GetLine(sn).value.0) == |data| <= |GetLine(sn).value.1|
    ensures var after := GetLine(sn).value.1;
            after[..|data|] == data && GetLine(after[|data|..]) == Some(([46], rest))
  {
  }

  /** The reading loop of f_stor. */
  method FStor(sn: Octets) returns (got: Option<Octets>, sn': Octets)
    ensures Received(sn) == if got.Some? then Some((got.value, sn')) else None
  {
    sn' := sn;
    var sizebuf := GetLine(sn');
    if sizebuf.None? { return None, sn'; }
    sn' := sizebuf.value.1;
    var rest, len := sn', Value(sizebuf.value.0);
    ghost var all := len;
    var file: Octets := [];
    while len > 0
      invariant 0 <= len <= all && |file| == all - len <= |rest|
      invariant file == rest[..all - len] && sn' == rest[all - len..]
    {
      var rc := if len < 8192 then len else 8192;
      rc := if |sn'| < rc then |sn'| else rc;
      if rc == 0 { return None, sn'; }
      assert rest[..all - len] + rest[all - len..][..rc] == rest[..all - len + rc];
      assert rest[all - len..][rc..] == rest[all - len + rc..];
      file, sn' := file + sn'[..rc], sn'[rc..];
      len := len - rc;
    }
    var line := GetLine(sn');
    if line.None? || line.value.0 != DOT { return None, sn'; }
    got, sn' := Some(file), line.value.1;
  }
}
