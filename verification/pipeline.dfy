/** Every run of the STOR exchange, in every interleaving of sending, delivery, storing and
    reading of replies, with a server that may fail at any point. */
module Pipelines {
  import opened Options
  import opened Stores

  /** Where f_stor is: waiting for a command, for the size, or reading and then waiting for
      the final ".". `Gone` is a server that has failed. */
  datatype Phase = Command | Size(desc: Octets) | Data(desc: Octets, left: nat, got: Octets) | Gone

  /** The client's variables, the two directions of the channel (what is under way and what
      has arrived), and the server's. `consumed` counts the replies taken. */
  datatype System = System(
    running: bool, issued: seq<Store>, respcount: int, consumed: nat,
    wire: Octets, inbox: Octets, replies: seq<char>,
    phase: Phase, stored: seq<Store>)

  const START := System(true, [], 0, 0, [], [], [], Command, [])

  datatype Step =
    | Issue(store: Store)   // lcreate sends a file
    | Deliver(n: nat)       // the network
    | Accept(good: bool)    // f_stor opens the file, or refuses
    | TakeSize
    | TakeData(n: nat)
    | Finish
    | Break(told: bool)     // the server fails, with a 5xx reply or without a word
    | Respond               // stor_response reads a reply
    | Hangup                // stor_response finds the connection closed

  /** The first digit that stor_response expects. */
  function Expected(respcount: int): char {
    if respcount % 2 == 1 then '2' else '3'
  }

  /** The first digit of the i-th reply of a server that does not fail: 350, 250, 350, ... */
  function ReplyAt(i: nat): char {
    if i % 2 == 0 then '3' else '2'
  }

  predicate Enabled(s: System, step: Step) {
    match step
    case Issue(st) => s.running && OneLine(st.desc)
    case Deliver(n) => 0 < n <= |s.wire|
    case Accept(_) => s.phase.Command? && GetLine(s.inbox).Some?
    case TakeSize => s.phase.Size? && GetLine(s.inbox).Some?
    case TakeData(n) => s.phase.Data? && 0 < n <= s.phase.left && n <= |s.inbox|
    case Finish => s.phase.Data? && s.phase.left == 0 && GetLine(s.inbox).Some?
    case Break(_) => !s.phase.Gone?
    case Respond => s.running && s.respcount > 0 && s.replies != []
    case Hangup => s.running && s.respcount > 0 && s.replies == [] && s.phase.Gone?
  }

  function Broken(s: System, told: bool): System {
    s.(phase := Gone, replies := if told then s.replies + ['5'] else s.replies)
  }

  function Do(s: System, step: Step): System
    requires Enabled(s, step)
  {
    match step
    case Issue(st) =>
      s.(issued := s.issued + [st], respcount := s.respcount + 2, wire := s.wire + Encode(st))
    case Deliver(n) => s.(inbox := s.inbox + s.wire[..n], wire := s.wire[n..])
    case Accept(good) =>
      if !good then Broken(s, true)
      else
        var (desc, rest) := GetLine(s.inbox).value;
        s.(inbox := rest, phase := Size(desc), replies := s.replies + ['3'])
    case TakeSize =>
      var (size, rest) := GetLine(s.inbox).value;
      s.(inbox := rest, phase := Data(s.phase.desc, Value(size), []))
    case TakeData(n) =>
      s.(inbox := s.inbox[n..],
         phase := Data(s.phase.desc, s.phase.left - n, s.phase.got + s.inbox[..n]))
    case Finish =>
      var (line, rest) := GetLine(s.inbox).value;
      if line != DOT then Broken(s, true)
      else
        s.(inbox := rest, phase := Command, replies := s.replies + ['2'],
           stored := s.stored + [Store(s.phase.desc, s.phase.got)])
    case Break(told) => Broken(s, told)
    case Respond =>
      if s.replies[0] == Expected(s.respcount) then
        s.(respcount := s.respcount - 1, consumed := s.consumed + 1, replies := s.replies[1..])
      else s.(running := false)
    case Hangup => s.(running := false)
  }

  /** The state after some steps, if each was possible in its turn. */
  function After(steps: seq<Step>): Option<System> {
    if steps == [] then Some(START)
    else
      match After(steps[..|steps| - 1])
      case None => None
      case Some(s) =>
        var step := steps[|steps| - 1];
        if Enabled(s, step) then Some(Do(s, step)) else None
  }

  /* ---- the invariant ---- */

  /** What is still to come through the channel. */
  predicate StreamOk(s: System) {
    var k := |s.stored|;
    var stream := s.inbox + s.wire;
    match s.phase
    case Gone => true
    case Command => k <= |s.issued| && stream == EncodeAll(s.issued[k..])
    case Size(desc) =>
      && k < |s.issued| && s.issued[k].desc == desc
      && stream == Body(s.issued[k].data) + EncodeAll(s.issued[k + 1..])
    case Data(desc, left, got) =>
      && k < |s.issued| && s.issued[k].desc == desc
      && |got| + left == |s.issued[k].data| && got == s.issued[k].data[..|got|]
      && stream == s.issued[k].data[|got|..] + (DOT + CRLF + EncodeAll(s.issued[k + 1..]))
  }

  /** A failed server's last word is among the replies. */
  predicate Told(s: System) {
    s.replies != [] && s.replies[|s.replies| - 1] == '5'
  }

  /** The replies on their way that say that all is well. */
  function Proper(s: System): nat {
    if Told(s) then |s.replies| - 1 else |s.replies|
  }

  /** The replies on their way are those still owed, and a failed server's last word. */
  predicate RepliesOk(s: System) {
    var sent := s.consumed + Proper(s);
    && (forall i :: 0 <= i < Proper(s) ==> s.replies[i] == ReplyAt(s.consumed + i))
    && (Told(s) ==> s.phase.Gone?)
    && (sent == 2 * |s.stored| || (sent == 2 * |s.stored| + 1 && |s.stored| < |s.issued|))
    && (!s.phase.Gone? ==> sent == 2 * |s.stored| + if s.phase.Command? then 0 else 1)
  }

  predicate StoredOk(s: System) {
    |s.stored| <= |s.issued| && s.stored == s.issued[..|s.stored|]
  }

  predicate Sent(s: System) {
    (forall i :: 0 <= i < |s.issued| ==> OneLine(s.issued[i].desc)) && StoredOk(s) && StreamOk(s)
  }

  predicate Inv(s: System) {
    Sent(s) && RepliesOk(s) && s.respcount >= 0 && s.consumed + s.respcount == 2 * |s.issued|
  }

  /* ---- each step keeps it ---- */

  lemma {:induction false} IssueKeeps(s: System, st: Store)
    requires Sent(s) && Enabled(s, Issue(st))
    ensures Sent(Do(s, Issue(st)))
  {
    var k, s' := |s.stored|, Do(s, Issue(st));
    var stream := s.inbox + s.wire;
    assert s'.inbox + s'.wire == stream + Encode(st);
    assert s'.issued[..k] == s.issued[..k];
    match s.phase
    case Gone =>
    case Command =>
      assert s'.issued[k..] == s.issued[k..] + [st];
      EncodeAllSnoc(s.issued[k..], st);
    case _ =>
      assert s'.issued[k + 1..] == s.issued[k + 1..] + [st];
      EncodeAllSnoc(s.issued[k + 1..], st);
      Append(s, st);
  }

  lemma {:induction false} Append(s: System, st: Store)
    requires Sent(s) && (s.phase.Size? || s.phase.Data?)
    ensures var stream, rest := s.inbox + s.wire + Encode(st), EncodeAll(s.issued[|s.stored| + 1..]) + Encode(st);
            stream == if s.phase.Size? then Body(s.issued[|s.stored|].data) + rest
                      else s.issued[|s.stored|].data[|s.phase.got|..] + (DOT + CRLF + rest)
  {
  }

  /** A line that is complete in what has arrived is the line that was sent. */
  lemma {:induction false} LineArrived(inbox: Octets, wire: Octets, l: Octets, rest: Octets)
    requires inbox + wire == l + CRLF + rest && OneLine(l) && GetLine(inbox).Some?
    ensures GetLine(inbox).value.0 == l && GetLine(inbox).value.1 + wire == rest
  {
    var s := l + CRLF + rest;
    if |inbox| < |l| + 2 {
      NoLineFrom(l, inbox, 0);
    } else {
      var tail := inbox[|l| + 2..];
      assert inbox == s[..|inbox|];
      assert inbox == l + CRLF + tail by {
        assert forall i :: 0 <= i < |l| + 2 ==> inbox[i] == s[i] == (l + CRLF)[i];
      }
      FirstLine(l, tail);
      assert tail + wire == rest by {
        assert l + CRLF + (tail + wire) == s;
      }
    }
  }

  lemma {:induction false} NoLineFrom(l: Octets, inbox: Octets, i: nat)
    requires OneLine(l) && |inbox| < |l| + 2 && i <= |inbox|
    requires forall j :: 0 <= j < |inbox| ==> inbox[j] == (l + CRLF)[j]
    ensures GetLineFrom(inbox, i) == None
    decreases |inbox| - i
  {
    if i < |inbox| {
      NoLineFrom(l, inbox, i + 1);
    }
  }

  lemma {:induction false} AcceptKeeps(s: System)
    requires Sent(s) && Enabled(s, Accept(true))
    ensures Sent(Do(s, Accept(true))) && |s.stored| < |s.issued|
  {
    var k := |s.stored|;
    var st, later := s.issued[k], EncodeAll(s.issued[k + 1..]);
    assert s.issued[k..][1..] == s.issued[k + 1..];
    assert Encode(st) + later == st.desc + CRLF + (Body(st.data) + later);
    LineArrived(s.inbox, s.wire, st.desc, Body(st.data) + later);
  }

  lemma {:induction false} SizeArrived(inbox: Octets, wire: Octets, data: Octets, later: Octets)
    requires inbox + wire == Body(data) + later && GetLine(inbox).Some?
    ensures Value(GetLine(inbox).value.0) == |data|
    ensures GetLine(inbox).value.1 + wire == data + (DOT + CRLF + later)
  {
    ValueOfDigits(|data|);
    assert Body(data) + later == Digits(|data|) + CRLF + (data + (DOT + CRLF + later));
    LineArrived(inbox, wire, Digits(|data|), data + (DOT + CRLF + later));
  }

  lemma {:induction false} TakeSizeKeeps(s: System)
    requires Sent(s) && Enabled(s, TakeSize)
    ensures Sent(Do(s, TakeSize))
  {
    var data := s.issued[|s.stored|].data;
    SizeArrived(s.inbox, s.wire, data, EncodeAll(s.issued[|s.stored| + 1..]));
    assert data[0..] == data;
  }

  lemma {:induction false} TakeDataKeeps(s: System, n: nat)
    requires Sent(s) && Enabled(s, TakeData(n))
    ensures Sent(Do(s, TakeData(n)))
  {
    var k, g := |s.stored|, |s.phase.got|;
    DataTaken(s.inbox, s.wire, s.issued[k].data, g, n, DOT + CRLF + EncodeAll(s.issued[k + 1..]));
  }

  lemma {:induction false} DataTaken(inbox: Octets, wire: Octets, data: Octets, g: nat, n: nat, tail: Octets)
    requires g + n <= |data| && n <= |inbox| && inbox + wire == data[g..] + tail
    ensures data[..g] + inbox[..n] == data[..g + n] && inbox[n..] + wire == data[g + n..] + tail
  {
    var stream := inbox + wire;
    assert inbox[..n] == stream[..n] == data[g..][..n];
    assert data[..g] + data[g..][..n] == data[..g + n];
    assert inbox[n..] + wire == stream[n..] == data[g + n..] + tail;
  }

  lemma {:induction false} FinishKeeps(s: System)
    requires Sent(s) && Enabled(s, Finish)
    ensures Sent(Do(s, Finish)) && Do(s, Finish).phase.Command?
  {
    var k, got := |s.stored|, s.phase.got;
    var data, later := s.issued[k].data, EncodeAll(s.issued[k + 1..]);
    assert data[|got|..] == [] && got == data;
    assert s.inbox + s.wire == DOT + CRLF + later;
    LineArrived(s.inbox, s.wire, DOT, later);
    assert s.issued[k] == Store(s.phase.desc, got);
    assert s.issued[..k + 1] == s.issued[..k] + [s.issued[k]];
  }

  lemma {:induction false} RespondKeeps(s: System)
    requires Inv(s) && Enabled(s, Respond)
    ensures Inv(Do(s, Respond))
  {
    var s' := Do(s, Respond);
    if s'.running {
      ReplyTaken(s, s');
    }
  }

  /** The first reply has been read, and it was proper. */
  lemma {:induction false} ReplyTaken(s: System, s': System)
    requires RepliesOk(s) && s.replies != [] && s.replies[0] != '5'
    requires s' == s.(respcount := s'.respcount, consumed := s.consumed + 1, replies := s.replies[1..])
    ensures RepliesOk(s')
  {
    assert forall i :: 0 <= i < |s'.replies| ==> s'.replies[i] == s.replies[i + 1];
  }

  lemma {:induction false} DeliverKeeps(s: System, n: nat)
    requires Sent(s) && Enabled(s, Deliver(n))
    ensures Sent(Do(s, Deliver(n)))
  {
    assert s.inbox + s.wire[..n] + s.wire[n..] == s.inbox + s.wire;
  }

  lemma {:induction false} BreakKeeps(s: System, told: bool)
    requires Inv(s) && !s.phase.Gone?
    ensures Inv(Broken(s, told))
  {
    assert Proper(Broken(s, told)) == Proper(s);
  }

  /** One more proper reply. */
  lemma {:induction false} ReplyKeeps(s: System, s': System)
    requires RepliesOk(s) && !s.phase.Gone? && s'.consumed == s.consumed && s'.issued == s.issued
    requires s'.replies == s.replies + [ReplyAt(s.consumed + |s.replies|)]
    requires !s'.phase.Gone? && |s'.stored| <= |s'.issued|
    requires if s'.phase.Command? then !s.phase.Command? && |s'.stored| == |s.stored| + 1
             else s.phase.Command? && |s'.stored| == |s.stored| < |s.issued|
    ensures RepliesOk(s')
  {
  }

  lemma {:induction false} AcceptStepKeeps(s: System, good: bool)
    requires Inv(s) && Enabled(s, Accept(good))
    ensures Inv(Do(s, Accept(good)))
  {
    if good {
      AcceptKeeps(s);
      ReplyKeeps(s, Do(s, Accept(true)));
    } else {
      BreakKeeps(s, true);
    }
  }

  lemma {:induction false} FinishStepKeeps(s: System)
    requires Inv(s) && Enabled(s, Finish)
    ensures Inv(Do(s, Finish))
  {
    FinishKeeps(s);
    ReplyKeeps(s, Do(s, Finish));
  }

  /** No reply is sent, and the server is as far on. */
  lemma {:induction false} SilentKeeps(s: System, s': System)
    requires Inv(s) && Sent(s') && s'.replies == s.replies && s'.consumed == s.consumed && s'.stored == s.stored
    requires s'.issued == s.issued && s'.respcount == s.respcount
    requires (s'.phase.Command? <==> s.phase.Command?) && (s'.phase.Gone? <==> s.phase.Gone?)
    ensures Inv(s')
  {
    assert Proper(s') == Proper(s);
  }

  lemma {:induction false} IssueStepKeeps(s: System, st: Store)
    requires Inv(s) && Enabled(s, Issue(st))
    ensures Inv(Do(s, Issue(st)))
  {
    IssueKeeps(s, st);
    assert Proper(Do(s, Issue(st))) == Proper(s);
  }

  lemma {:induction false} ReadStepKeeps(s: System, step: Step)
    requires Inv(s) && Enabled(s, step) && (step.Deliver? || step.TakeSize? || step.TakeData?)
    ensures Inv(Do(s, step))
  {
    if step.Deliver? {
      DeliverKeeps(s, step.n);
    } else if step.TakeSize? {
      TakeSizeKeeps(s);
    } else {
      TakeDataKeeps(s, step.n);
    }
    SilentKeeps(s, Do(s, step));
  }

  lemma {:induction false} StepKeeps(s: System, step: Step)
    requires Inv(s) && Enabled(s, step)
    ensures Inv(Do(s, step))
  {
    match step
    case Issue(st) => IssueStepKeeps(s, st);
    case Break(told) => BreakKeeps(s, told);
    case Respond => RespondKeeps(s);
    case Hangup =>
    case Accept(good) => AcceptStepKeeps(s, good);
    case Finish => FinishStepKeeps(s);
    case _ => ReadStepKeeps(s, step);
  }

  /** Every run keeps the invariant: what was stored is a prefix of what was sent, in order
      and byte for byte, and replies taken plus `respcount` is twice the stores issued. */
  lemma {:induction false} AlwaysInv(steps: seq<Step>)
    requires After(steps).Some?
    ensures Inv(After(steps).value)
  {
    if steps != [] {
      var front := steps[..|steps| - 1];
      AlwaysInv(front);
      StepKeeps(After(front).value, steps[|steps| - 1]);
    }
  }

  /* ---- what it means ---- */

  lemma {:induction false} SameParity(respcount: int, consumed: nat, n: nat)
    requires consumed + respcount == 2 * n
    ensures Expected(respcount) == ReplyAt(consumed)
  {
  }

  lemma {:induction false} NextIsExpected(s: System)
    requires RepliesOk(s) && StoredOk(s) && s.consumed + s.respcount == 2 * |s.issued|
    requires !s.phase.Gone? && s.replies != []
    ensures s.respcount > 0 && s.replies[0] == Expected(s.respcount)
  {
    SameParity(s.respcount, s.consumed, |s.issued|);
    assert s.replies[0] == ReplyAt(s.consumed + 0);
  }

  /** A server that has not failed is never taken for one that has: the parity of the count
      always asks for the reply that comes next. */
  lemma {:induction false} ParityIsRight(steps: seq<Step>)
    requires After(steps).Some?
    ensures var s := After(steps).value;
            !s.phase.Gone? && s.replies != [] ==> s.respcount > 0 && s.replies[0] == Expected(s.respcount)
  {
    AlwaysInv(steps);
    var s := After(steps).value;
    if !s.phase.Gone? && s.replies != [] {
      NextIsExpected(s);
    }
  }

  /** With the count back at zero everything has been stored as it was sent, even if the
      server failed later. */
  lemma {:induction false} ZeroMeansStored(steps: seq<Step>)
    requires After(steps).Some? && After(steps).value.respcount == 0
    ensures After(steps).value.stored == After(steps).value.issued
  {
    AlwaysInv(steps);
    var s := After(steps).value;
    assert s.issued[..|s.issued|] == s.issued;
  }

  /** The client gives up only on a server that has failed. */
  lemma {:induction false} StopsOnlyOnFailure(steps: seq<Step>)
    requires After(steps).Some? && !After(steps).value.running
    ensures After(steps).value.phase.Gone?
  {
    var front := steps[..|steps| - 1];
    var s := After(front).value;
    if s.running {
      ParityIsRight(front);
    } else {
      StopsOnlyOnFailure(front);
    }
  }

  /** The steps that bring a store nearer to its end. */
  predicate Helps(step: Step) {
    step.Deliver? || step == Accept(true) || step.TakeSize? || step.TakeData? || step.Finish? || step.Respond?
  }

  /** No deadlock: while replies are awaited and the server has not failed, one of them can
      be taken. */
  lemma {:induction false} NeverStuck(steps: seq<Step>) returns (step: Step)
    requires After(steps).Some?
    requires After(steps).value.running && After(steps).value.respcount > 0 && !After(steps).value.phase.Gone?
    ensures Enabled(After(steps).value, step) && Helps(step)
  {
    AlwaysInv(steps);
    var s := After(steps).value;
    if s.replies != [] {
      step := Respond;
    } else if s.wire != [] {
      step := Deliver(1);
    } else {
      step := ServerCanMove(s);
    }
  }

  lemma {:induction false} CommandWaits(s: System)
    requires Sent(s) && s.wire == [] && s.phase.Command? && |s.stored| < |s.issued|
    ensures Enabled(s, Accept(true))
  {
    var k := |s.stored|;
    var st, later := s.issued[k], EncodeAll(s.issued[k + 1..]);
    assert s.inbox == s.inbox + s.wire;
    assert s.issued[k..][1..] == s.issued[k + 1..];
    assert s.inbox == st.desc + CRLF + (Body(st.data) + later);
    FirstLine(st.desc, Body(st.data) + later);
  }

  lemma {:induction false} BodyThen(d: Octets, x: Octets, later: Octets)
    ensures (d + CRLF + x) + later == d + CRLF + (x + later)
  {
  }

  lemma {:induction false} SizeWaits(s: System)
    requires Sent(s) && s.wire == [] && s.phase.Size?
    ensures Enabled(s, TakeSize)
  {
    var data, later := s.issued[|s.stored|].data, EncodeAll(s.issued[|s.stored| + 1..]);
    assert s.inbox + s.wire == s.inbox;
    SizeInFront(s.inbox, data, later);
  }

  lemma {:induction false} SizeInFront(inbox: Octets, data: Octets, later: Octets)
    requires inbox == Body(data) + later
    ensures GetLine(inbox).Some?
  {
    var d, x := Digits(|data|), data + (DOT + CRLF);
    ValueOfDigits(|data|);
    BodyThen(d, x, later);
    FirstLine(d, x + later);
  }

  lemma {:induction false} DataWaits(s: System) returns (step: Step)
    requires Sent(s) && s.wire == [] && s.phase.Data?
    ensures Enabled(s, step) && Helps(step)
  {
    var later := EncodeAll(s.issued[|s.stored| + 1..]);
    assert s.inbox == s.inbox + s.wire;
    if s.phase.left > 0 {
      step := TakeData(1);
    } else {
      assert s.inbox == DOT + CRLF + later;
      FirstLine(DOT, later);
      step := Finish;
    }
  }

  /** With all bytes delivered and no reply on its way, the server has something to do. */
  lemma {:induction false} ServerCanMove(s: System) returns (step: Step)
    requires Inv(s) && s.replies == [] && s.wire == [] && s.respcount > 0 && !s.phase.Gone?
    ensures Enabled(s, step) && Helps(step)
  {
    if s.phase.Command? {
      CommandWaits(s);
      step := Accept(true);
    } else if s.phase.Size? {
      SizeWaits(s);
      step := TakeSize;
    } else {
      step := DataWaits(s);
    }
  }

  /* ---- the end of the drain ---- */

  /** What is still to happen once no more files are sent: bytes to arrive and to be read,
      replies to be taken, the two ways to stop. */
  function ToCome(s: System): nat {
    4 * |s.wire| + 2 * |s.inbox| + |s.replies| + (if s.running then 1 else 0) + (if s.phase.Gone? then 0 else 2)
  }

  lemma {:induction false} LineShortens(s: Octets, i: nat)
    requires i <= |s| && GetLineFrom(s, i).Some?
    ensures |GetLineFrom(s, i).value.1| < |s|
    decreases |s| - i
  {
    if s[i] != LF {
      LineShortens(s, i + 1);
    }
  }

  /** Every step of any party but sending a file lowers it. */
  lemma {:induction false} StepLowers(s: System, step: Step)
    requires Enabled(s, step) && !step.Issue?
    ensures ToCome(Do(s, step)) < ToCome(s)
  {
    if step.Accept? || step.TakeSize? || step.Finish? {
      LineShortens(s.inbox, 0);
    }
  }

  predicate NoIssue(steps: seq<Step>) {
    forall i :: 0 <= i < |steps| ==> !steps[i].Issue?
  }

  /** So once no more files are sent a run ends, and this bounds it. */
  lemma {:induction false} DrainIsBounded(steps: seq<Step>, more: seq<Step>)
    requires NoIssue(more) && After(steps + more).Some?
    ensures After(steps).Some? && |more| + ToCome(After(steps + more).value) <= ToCome(After(steps).value)
    decreases |more|
  {
    if more == [] {
      assert steps + more == steps;
    } else {
      var n := |more| - 1;
      OneMore(steps, more);
      DrainIsBounded(steps, more[..n]);
      StepLowers(After(steps + more[..n]).value, more[n]);
    }
  }

  lemma {:induction false} OneMore(steps: seq<Step>, more: seq<Step>)
    requires more != [] && After(steps + more).Some?
    ensures var s := After(steps + more[..|more| - 1]);
            s.Some? && Enabled(s.value, more[|more| - 1]) && After(steps + more).value == Do(s.value, more[|more| - 1])
  {
    var all := steps + more;
    assert all[..|all| - 1] == steps + more[..|more| - 1];
  }

  /** Nothing that brings the end nearer is left to do. */
  ghost predicate Quiet(s: System) {
    forall step :: Helps(step) || step == Hangup ==> !Enabled(s, step)
  }

  /** And where it ends the count is back at zero, or the client has stopped; and if the
      server has not failed, everything is stored as sent. */
  lemma {:induction false} QuietMeansDone(steps: seq<Step>)
    requires After(steps).Some? && Quiet(After(steps).value)
    ensures var s := After(steps).value;
            && (s.running ==> s.respcount == 0)
            && (!s.phase.Gone? ==> s.running && s.respcount == 0 && s.stored == s.issued)
  {
    AlwaysInv(steps);
    var s := After(steps).value;
    assert !Enabled(s, Respond) && !Enabled(s, Hangup);
    if !s.phase.Gone? {
      if !s.running {
        StopsOnlyOnFailure(steps);
      }
      if s.respcount > 0 {
        var step := NeverStuck(steps);
      }
      ZeroMeansStored(steps);
    }
  }

  /* ---- stor_response ---- */

  /** Reading replies for as long as any are owed and here. */
  function Drained(s: System): System
    decreases |s.replies|, s.running
  {
    if Enabled(s, Respond) then Drained(Do(s, Respond)) else s
  }

  function Taken(s: System, n: nat): System
    requires n <= |s.replies|
  {
    s.(respcount := s.respcount - n, consumed := s.consumed + n, replies := s.replies[n..])
  }

  /** What the first `n` replies leave to be drained. */
  predicate DrainsFrom(s: System, n: nat) {
    n <= |s.replies| && Drained(s) == Drained(Taken(s, n))
  }

  /** One more reply: the parity test passes or fails on it. */
  lemma {:induction false} DrainOne(s: System, n: nat)
    requires s.running && n < |s.replies| && s.respcount > n && DrainsFrom(s, n)
    ensures var right := s.replies[n] == if (s.respcount - n) % 2 == 1 then '2' else '3';
            if right then DrainsFrom(s, n + 1) else Drained(s) == Taken(s, n).(running := false)
  {
    var t := Taken(s, n);
    assert t.replies[0] == s.replies[n] && t.replies[1..] == s.replies[n + 1..];
    var t' := Do(t, Respond);
    assert Drained(t) == Drained(t');
    if !t'.running {
      assert Drained(t') == t';
    }
  }

  /** stor_response with the replies that have arrived; -1 makes lcreate exit. */
  method StorResponse(s: System) returns (rc: int, s': System)
    requires s.running
    ensures s' == Drained(s) && (rc == 0 <==> s'.running)
    ensures rc == 0 ==> s'.respcount <= 0 || s'.replies == []
  {
    var respcount, taken := s.respcount, 0;
    assert Taken(s, 0) == s;
    while respcount > 0
      invariant 0 <= taken <= |s.replies| && respcount == s.respcount - taken && DrainsFrom(s, taken)
    {
      if taken == |s.replies| {
        break;
      }
      var line := s.replies[taken];
      DrainOne(s, taken);
      if respcount % 2 == 1 {
        if line != '2' { return -1, Taken(s, taken).(running := false); }
      } else {
        if line != '3' { return -1, Taken(s, taken).(running := false); }
      }
      taken := taken + 1;
      respcount := respcount - 1;
    }
    rc, s' := 0, Taken(s, taken);
  }

  /** Draining is a run of Respond steps, so all that is said of runs holds of it. */
  lemma {:induction false} DrainedIsARun(steps: seq<Step>) returns (more: seq<Step>)
    requires After(steps).Some?
    ensures steps <= more && After(more) == Some(Drained(After(steps).value))
    decreases |After(steps).value.replies|, After(steps).value.running
  {
    var s := After(steps).value;
    if Enabled(s, Respond) {
      var next := steps + [Respond];
      assert next[..|next| - 1] == steps;
      more := DrainedIsARun(next);
    } else {
      more := steps;
    }
  }

  /* ---- lcreate ---- */

  predicate NotClients(step: Step) {
    !step.Issue? && !step.Respond? && !step.Hangup?
  }

  lemma {:induction false} AfterSnoc(steps: seq<Step>, step: Step)
    requires After(steps).Some? && Enabled(After(steps).value, step)
    ensures After(steps + [step]) == Some(Do(After(steps).value, step))
  {
    assert (steps + [step])[..|steps|] == steps;
  }

  /** What the network and the server do meanwhile: those of `others` that are possible. */
  method Meanwhile(s: System, others: seq<Step>, ghost steps: seq<Step>) returns (s': System, ghost more: seq<Step>)
    requires After(steps) == Some(s)
    ensures After(more) == Some(s') && s'.issued == s.issued && s'.running == s.running && s'.respcount == s.respcount
  {
    s', more := s, steps;
    var i := 0;
    while i < |others|
      invariant After(more) == Some(s')
      invariant s'.issued == s.issued && s'.running == s.running && s'.respcount == s.respcount
    {
      if NotClients(others[i]) && Enabled(s', others[i]) {
        AfterSnoc(more, others[i]);
        s', more := Do(s', others[i]), more + [others[i]];
      }
      i := i + 1;
    }
  }

  lemma {:induction false} DrainedKeeps(s: System)
    ensures Drained(s).issued == s.issued && Drained(s).respcount <= s.respcount
    decreases |s.replies|, s.running
  {
    if Enabled(s, Respond) {
      DrainedKeeps(Do(s, Respond));
    }
  }

  /** Before each file: whatever happens meanwhile, and the replies that are there. */
  method ReadReplies(s: System, others: seq<Step>, ghost steps: seq<Step>) returns (s': System, ghost more: seq<Step>)
    requires After(steps) == Some(s) && s.running
    ensures After(more) == Some(s') && s'.issued == s.issued
  {
    s', more := Meanwhile(s, others, steps);
    if s'.respcount > 0 {
      var rc;
      more := DrainedIsARun(more);
      DrainedKeeps(s');
      rc, s' := StorResponse(s');
    }
  }

  /** The loop of lcreate over the files of a transcript: before each one the replies that
      are there are read, and the loop ends early only when the server has failed. */
  method Lcreate(stores: seq<Store>, others: nat -> seq<Step>) returns (s: System, ghost steps: seq<Step>)
    requires forall i :: 0 <= i < |stores| ==> OneLine(stores[i].desc)
    ensures After(steps) == Some(s) && s.issued <= stores
    ensures if s.running then s.issued == stores else s.phase.Gone?
    ensures s.respcount == 0 ==> s.stored == s.issued
  {
    s, steps := START, [];
    var i := 0;
    while i < |stores| && s.running
      invariant 0 <= i <= |stores| && After(steps) == Some(s)
      invariant s.issued == stores[..i]
      decreases |stores| - i, s.running
    {
      s, steps := ReadReplies(s, others(i), steps);
      if s.running {
        AfterSnoc(steps, Issue(stores[i]));
        steps := steps + [Issue(stores[i])];
        s := Do(s, Issue(stores[i]));
        assert stores[..i + 1] == stores[..i] + [stores[i]];
        i := i + 1;
      }
    }
    Outcome(steps);
  }

  lemma {:induction false} Outcome(steps: seq<Step>)
    requires After(steps).Some?
    ensures !After(steps).value.running ==> After(steps).value.phase.Gone?
    ensures After(steps).value.respcount == 0 ==> After(steps).value.stored == After(steps).value.issued
  {
    if !After(steps).value.running {
      StopsOnlyOnFailure(steps);
    }
    if After(steps).value.respcount == 0 {
      ZeroMeansStored(steps);
    }
  }
}
