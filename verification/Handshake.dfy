/** The handshake of send_receive. */
module Handshake {
  // The thread that sends a command and the thread that receives from the socket share one
  // buffer, its length, the awaited id and two semaphores. The buffer and current_resp_len are
  // read by the caller and written by the receiver without a lock. What keeps them apart is
  // only that the receiver waits, for 100 ms at most, until the caller has copied the response.

  import opened Json
  import opened Text

  const BUFFER_SIZE: nat := 1024

  /** The statement of send_receive the caller is about to run. */
  datatype Caller =
    | Idle
    | SettingId
    | ClearingReady
    | Sending
    | Waiting
    | Comparing
    | Sizing
    | Copying
    | PostingDone
    | ResettingId

  /** The statement of the receive loop and of kiosk_msg_received. */
  datatype Receiver =
    | Receiving
    | Checking
    | SettingLen
    | ClearingDone
    | PostingReady
    | AwaitingDone
    | ZeroingLen

  datatype Ret = NotReturned | RetOk | CommError | GeneralError

  /** callId and cap are the awaited id and the size of the caller's buffer. Below the shared
      variables stands what only the specification looks at: the id the message was checked
      against, the id awaited when it was announced, whether _expected_id kept its value in
      between, all messages received, and the message that was announced to the caller. */
  datatype State = State(
    caller: Caller, callId: int, cap: nat, resp: string, respLen: nat, result: Ret,
    receiver: Receiver, msg: string,
    expectedId: int, ready: nat, done: nat, curLen: nat, buf: string,
    matched: int, postedFor: int, stable: bool, log: seq<string>, taken: string, takenStable: bool)

  datatype Action =
    | Call(id: int, cap: nat)
    | SetId
    | TryWaitReady
    | Send(ok: bool)
    | TakeReady
    | TimeOut
    | Compare
    | Size
    | CopyByte
    | CopyEnd
    | PostDone
    | ResetId
    | Receive(message: string)
    | Check
    | SetLen
    | TryWaitDone
    | PostReady
    | TakeDone
    | Expire
    | ZeroLen

  /** parse_id of a message. */
  type IdOf = string -> Option<int>

  function Padded(m: string): string
    requires |m| <= BUFFER_SIZE
  {
    m + seq(BUFFER_SIZE - |m|, i => NUL)
  }

  const INITIAL: State :=
    State(Idle, 0, 0, [], 0, NotReturned, Receiving, [], -1, 0, 0, 0, Padded([]), 0, 0, false, [], [], false)

  predicate CanDo(s: State, a: Action) {
    match a
    case Call(_, _) => s.caller == Idle
    case SetId => s.caller == SettingId
    case TryWaitReady => s.caller == ClearingReady
    case Send(_) => s.caller == Sending
    case TakeReady => s.caller == Waiting && s.ready > 0
    case TimeOut => s.caller == Waiting
    case Compare => s.caller == Comparing
    case Size => s.caller == Sizing
    case CopyByte => s.caller == Copying && |s.resp| < s.respLen && |s.resp| < |s.buf|
    case CopyEnd => s.caller == Copying && |s.resp| == s.respLen
    case PostDone => s.caller == PostingDone
    case ResetId => s.caller == ResettingId
    case Receive(m) => s.receiver == Receiving && 0 < |m| <= BUFFER_SIZE
    case Check => s.receiver == Checking
    case SetLen => s.receiver == SettingLen
    case TryWaitDone => s.receiver == ClearingDone
    case PostReady => s.receiver == PostingReady
    case TakeDone => s.receiver == AwaitingDone && s.done > 0
    case Expire => s.receiver == AwaitingDone
    case ZeroLen => s.receiver == ZeroingLen
  }

  /** The receiver has checked a message and not yet announced it. */
  predicate Between(r: Receiver) { r == SettingLen || r == ClearingDone || r == PostingReady }

  function WriteId(s: State, id: int): State {
    s.(expectedId := id, stable := s.stable && (!Between(s.receiver) || id == s.expectedId))
  }

  /** One step. _sema_clear takes one token a turn and ends when there is none. */
  function Do(s: State, a: Action, idOf: IdOf): State
    requires CanDo(s, a)
  {
    match a
    case Call(id, cap) =>
        s.(caller := SettingId, callId := id, cap := cap, resp := [], respLen := 0, result := NotReturned)
    case SetId => WriteId(s, s.callId).(caller := ClearingReady)
    case TryWaitReady => if s.ready > 0 then s.(ready := s.ready - 1) else s.(caller := Sending)
    case Send(ok) => if ok then s.(caller := Waiting) else s.(caller := Idle, result := CommError)
    case TakeReady => s.(caller := Comparing, ready := s.ready - 1, taken := s.msg, takenStable := s.stable)
    case TimeOut => s.(caller := Idle, result := CommError)
    case Compare => if s.curLen > s.cap then s.(caller := Idle, result := GeneralError) else s.(caller := Sizing)
    case Size => s.(caller := Copying, respLen := s.curLen)
    case CopyByte => s.(resp := s.resp + [s.buf[|s.resp|]])
    case CopyEnd => s.(caller := PostingDone)
    case PostDone => s.(caller := ResettingId, done := s.done + 1)
    case ResetId => WriteId(s, -1).(caller := Idle, result := RetOk)
    case Receive(m) => s.(receiver := Checking, msg := m, buf := Padded(m), log := s.log + [m])
    case Check =>
      if s.expectedId >= 0 && idOf(s.msg) == Some(s.expectedId) then
        s.(receiver := SettingLen, matched := s.expectedId, stable := true)
      else s.(receiver := Receiving)
    case SetLen => s.(receiver := ClearingDone, curLen := |s.msg|)
    case TryWaitDone => if s.done > 0 then s.(done := s.done - 1) else s.(receiver := PostingReady)
    case PostReady => s.(receiver := AwaitingDone, ready := s.ready + 1, postedFor := s.expectedId)
    case TakeDone => s.(receiver := ZeroingLen, done := s.done - 1)
    case Expire => s.(receiver := ZeroingLen)
    case ZeroLen => s.(receiver := Receiving, curLen := 0)
  }

  predicate ByReceiver(a: Action) {
    a.Receive? || a.Check? || a.SetLen? || a.TryWaitDone? || a.PostReady? || a.TakeDone? || a.Expire? || a.ZeroLen?
  }

  /** From the successful wait up to the post of sema_resp_done. */
  predicate InCopy(c: Caller) { c == Comparing || c == Sizing || c == Copying || c == PostingDone }

  /** A token is consumed and its response copied before the receiver's wait for it expires. */
  predicate Timely(s: State, a: Action) {
    (a.Expire? ==> !InCopy(s.caller)) && (a.TakeReady? ==> s.receiver == AwaitingDone)
  }

  // ----- what every step keeps

  ghost predicate Inv(s: State, idOf: IdOf) {
    SharedInv(s) && MessageInv(s, idOf) && IdInv(s) && CopyInv(s, idOf)
  }

  ghost predicate SharedInv(s: State) {
    (InCopy(s.caller) ==> s.receiver == AwaitingDone && s.done == 0) &&
    (s.receiver == PostingReady ==> s.done == 0) &&
    (s.receiver == AwaitingDone && s.done > 0 && (s.caller == Sending || s.caller == Waiting) ==> s.ready == 0)
  }

  ghost predicate MessageInv(s: State, idOf: IdOf) {
    |s.buf| == BUFFER_SIZE && s.curLen <= BUFFER_SIZE &&
    (s.receiver != Receiving ==>
       0 < |s.msg| <= BUFFER_SIZE && s.buf[..|s.msg|] == s.msg && s.msg in s.log) &&
    (s.receiver == ClearingDone || s.receiver == PostingReady || s.receiver == AwaitingDone ==> s.curLen == |s.msg|) &&
    (Between(s.receiver) || s.receiver == AwaitingDone ==> idOf(s.msg) == Some(s.matched) && s.matched >= 0) &&
    (s.receiver == Receiving || s.receiver == Checking || s.receiver == SettingLen ==> s.curLen == 0)
  }

  ghost predicate IdInv(s: State) {
    (s.caller == Idle && s.result == RetOk ==> s.expectedId == -1) &&
    (s.caller != Idle && s.caller != SettingId ==> s.expectedId == s.callId) &&
    ((s.caller == Sending || s.caller == Waiting) && s.ready > 0 && s.receiver == AwaitingDone ==>
        s.postedFor == s.callId) &&
    (Between(s.receiver) && s.stable ==> s.matched == s.expectedId) &&
    (s.receiver == AwaitingDone && s.stable ==> s.matched == s.postedFor)
  }

  ghost predicate CopyInv(s: State, idOf: IdOf) {
    (InCopy(s.caller) ==>
       s.taken == s.msg && s.taken in s.log && (s.takenStable ==> idOf(s.taken) == Some(s.callId))) &&
    (s.caller == Sizing ==> s.resp == [] && s.curLen <= s.cap) && (s.caller == Comparing ==> s.resp == []) &&
    (s.caller == Copying || s.caller == PostingDone ==>
       s.respLen == |s.msg| <= s.cap && |s.resp| <= |s.msg| && s.resp == s.msg[..|s.resp|]) &&
    (s.caller == Waiting || s.caller == Sending || s.caller == ClearingReady || s.caller == SettingId ==>
        s.resp == []) &&
    (s.caller == PostingDone ==> |s.resp| == s.respLen) &&
    (s.caller == ResettingId || (s.caller == Idle && s.result == RetOk) ==> WholeMessage(s, idOf))
  }

  /** The caller holds a whole message, and if _expected_id did not change between the check
      and the announcement of that message it has the awaited id. */
  ghost predicate WholeMessage(s: State, idOf: IdOf) {
    s.resp == s.taken && s.taken in s.log && s.respLen == |s.resp| <= s.cap &&
    (s.takenStable ==> idOf(s.resp) == Some(s.callId))
  }

  lemma {:induction false} InitialInv(idOf: IdOf)
    ensures Inv(INITIAL, idOf)
  {
  }

  lemma {:induction false} CallerKeepsShared(s: State, a: Action, idOf: IdOf)
    requires SharedInv(s) && CanDo(s, a) && Timely(s, a) && !ByReceiver(a)
    ensures SharedInv(Do(s, a, idOf))
  {
  }

  /** The two writes of _expected_id. */
  lemma {:induction false} WritesKeepIds(s: State, a: Action, idOf: IdOf)
    requires IdInv(s) && CanDo(s, a) && (a.SetId? || a.ResetId?)
    ensures IdInv(Do(s, a, idOf))
  {
  }

  lemma {:induction false} CallerKeepsIds(s: State, a: Action, idOf: IdOf)
    requires IdInv(s) && CanDo(s, a) && Timely(s, a) && !ByReceiver(a)
    ensures IdInv(Do(s, a, idOf))
  {
    if a.SetId? || a.ResetId? { WritesKeepIds(s, a, idOf); }
  }

  lemma {:induction false} CallerKeepsMessage(s: State, a: Action, idOf: IdOf)
    requires MessageInv(s, idOf) && CanDo(s, a) && !ByReceiver(a)
    ensures MessageInv(Do(s, a, idOf), idOf)
  {
  }

  lemma {:induction false} CopyByteKeeps(s: State, idOf: IdOf)
    requires Inv(s, idOf) && CanDo(s, CopyByte)
    ensures CopyInv(Do(s, CopyByte, idOf), idOf)
  {
    var k := |s.resp|;
    assert s.buf[k] == s.buf[..|s.msg|][k];
    assert s.msg[..k + 1] == s.msg[..k] + [s.msg[k]];
  }

  lemma {:induction false} AskKeepsCopy(s: State, a: Action, idOf: IdOf)
    requires Inv(s, idOf) && CanDo(s, a) && Timely(s, a)
    requires a.Call? || a.SetId? || a.TryWaitReady? || a.Send? || a.TakeReady? || a.TimeOut?
    ensures CopyInv(Do(s, a, idOf), idOf)
  {
  }

  lemma {:induction false} CallerKeepsCopy(s: State, a: Action, idOf: IdOf)
    requires Inv(s, idOf) && CanDo(s, a) && Timely(s, a) && !ByReceiver(a)
    ensures CopyInv(Do(s, a, idOf), idOf)
  {
    if a.CopyByte? {
      CopyByteKeeps(s, idOf);
    } else if a.Compare? || a.Size? || a.CopyEnd? || a.PostDone? || a.ResetId? {
      assert s.msg[..|s.msg|] == s.msg;
    } else {
      AskKeepsCopy(s, a, idOf);
    }
  }

  lemma {:induction false} CallerKeeps(s: State, a: Action, idOf: IdOf)
    requires Inv(s, idOf) && CanDo(s, a) && Timely(s, a) && !ByReceiver(a)
    ensures Inv(Do(s, a, idOf), idOf)
  {
    CallerKeepsShared(s, a, idOf);
    CallerKeepsMessage(s, a, idOf);
    CallerKeepsIds(s, a, idOf);
    CallerKeepsCopy(s, a, idOf);
  }

  lemma {:induction false} ReceiverKeepsMessage(s: State, a: Action, idOf: IdOf)
    requires MessageInv(s, idOf) && CanDo(s, a) && ByReceiver(a)
    ensures MessageInv(Do(s, a, idOf), idOf)
  {
    if a.Receive? {
      assert Padded(a.message)[..|a.message|] == a.message;
    }
  }

  lemma {:induction false} ReceiverKeepsCopy(s: State, a: Action, idOf: IdOf)
    requires SharedInv(s) && CopyInv(s, idOf) && CanDo(s, a) && Timely(s, a) && ByReceiver(a)
    ensures CopyInv(Do(s, a, idOf), idOf)
  {
    if a.Receive? && (s.caller == ResettingId || (s.caller == Idle && s.result == RetOk)) {
      assert s.taken in s.log + [a.message];
    }
  }

  lemma {:induction false} ReceiverKeeps(s: State, a: Action, idOf: IdOf)
    requires Inv(s, idOf) && CanDo(s, a) && Timely(s, a) && ByReceiver(a)
    ensures Inv(Do(s, a, idOf), idOf)
  {
    ReceiverKeepsMessage(s, a, idOf);
    ReceiverKeepsCopy(s, a, idOf);
  }

  // ----- runs

  predicate IsRun(s: State, actions: seq<Action>, idOf: IdOf)
    decreases |actions|
  {
    actions == [] || (CanDo(s, actions[0]) && IsRun(Do(s, actions[0], idOf), actions[1..], idOf))
  }

  predicate IsTimely(s: State, actions: seq<Action>, idOf: IdOf)
    requires IsRun(s, actions, idOf)
    decreases |actions|
  {
    actions == [] || (Timely(s, actions[0]) && IsTimely(Do(s, actions[0], idOf), actions[1..], idOf))
  }

  function End(s: State, actions: seq<Action>, idOf: IdOf): State
    requires IsRun(s, actions, idOf)
    decreases |actions|
  {
    if actions == [] then s else End(Do(s, actions[0], idOf), actions[1..], idOf)
  }

  lemma {:induction false} RunKeeps(s: State, actions: seq<Action>, idOf: IdOf)
    requires Inv(s, idOf) && IsRun(s, actions, idOf) && IsTimely(s, actions, idOf)
    ensures Inv(End(s, actions, idOf), idOf)
    decreases |actions|
  {
    if actions != [] {
      if ByReceiver(actions[0]) { ReceiverKeeps(s, actions[0], idOf); } else { CallerKeeps(s, actions[0], idOf); }
      RunKeeps(Do(s, actions[0], idOf), actions[1..], idOf);
    }
  }

  /** In every timely interleaving the receiver cannot take any step while the caller copies:
      neither the buffer nor current_resp_len is written under the caller's eyes. */
  lemma {:induction false} Exclusion(actions: seq<Action>, next: Action, idOf: IdOf)
    requires IsRun(INITIAL, actions, idOf) && IsTimely(INITIAL, actions, idOf)
    requires InCopy(End(INITIAL, actions, idOf).caller)
    requires CanDo(End(INITIAL, actions, idOf), next) && Timely(End(INITIAL, actions, idOf), next)
    ensures !ByReceiver(next)
    ensures Do(End(INITIAL, actions, idOf), next, idOf).buf == End(INITIAL, actions, idOf).buf
    ensures Do(End(INITIAL, actions, idOf), next, idOf).curLen == End(INITIAL, actions, idOf).curLen
  {
    InitialInv(idOf);
    RunKeeps(INITIAL, actions, idOf);
  }

  /** So whenever send_receive returns OK the caller holds one whole received message, no longer
      than its buffer; it has the awaited id if that id did not change between check and announcement. */
  lemma {:induction false} OkMeansWholeMessage(actions: seq<Action>, idOf: IdOf)
    requires IsRun(INITIAL, actions, idOf) && IsTimely(INITIAL, actions, idOf)
    requires var s := End(INITIAL, actions, idOf); s.caller == Idle && s.result == RetOk
    ensures var s := End(INITIAL, actions, idOf);
            s.resp in s.log && s.respLen == |s.resp| <= s.cap && (s.takenStable ==> idOf(s.resp) == Some(s.callId))
  {
    InitialInv(idOf);
    RunKeeps(INITIAL, actions, idOf);
  }

  /** The comparison with the size of the caller's buffer: an error is returned exactly for an
      announced message that is longer, and nothing is copied then. */
  lemma {:induction false} TooLongExactly(actions: seq<Action>, idOf: IdOf)
    requires IsRun(INITIAL, actions, idOf) && IsTimely(INITIAL, actions, idOf)
    requires CanDo(End(INITIAL, actions, idOf), Compare)
    ensures var s := End(INITIAL, actions, idOf);
            var t := Do(s, Compare, idOf);
            s.taken in s.log && t.resp == [] &&
            if |s.taken| > s.cap then t.caller == Idle && t.result == GeneralError else t.caller == Sizing
  {
    InitialInv(idOf);
    RunKeeps(INITIAL, actions, idOf);
  }

  /** What a call returns: a general error for a message that is too long, a communication
      error when sending fails or nothing is announced in time, OK otherwise. */
  lemma {:induction false} ReturnsExactly(s: State, a: Action, idOf: IdOf)
    requires CanDo(s, a) && s.caller != Idle && Do(s, a, idOf).caller == Idle
    ensures var r := Do(s, a, idOf).result;
            (r == GeneralError <==> a == Compare && s.curLen > s.cap) &&
            (r == CommError <==> a == Send(false) || a == TimeOut) && (r == RetOk <==> a == ResetId)
  {
  }

  /** Once a call has returned OK no message is taken for an answer any more. */
  lemma {:induction false} NothingAwaited(actions: seq<Action>, idOf: IdOf)
    requires IsRun(INITIAL, actions, idOf) && IsTimely(INITIAL, actions, idOf)
    requires var s := End(INITIAL, actions, idOf); s.caller == Idle && s.result == RetOk && CanDo(s, Check)
    ensures Do(End(INITIAL, actions, idOf), Check, idOf).receiver == Receiving
  {
    InitialInv(idOf);
    RunKeeps(INITIAL, actions, idOf);
  }

  // ----- the assumption is needed

  lemma {:induction false} RunConcat(s: State, a: seq<Action>, b: seq<Action>, idOf: IdOf)
    requires IsRun(s, a, idOf) && IsRun(End(s, a, idOf), b, idOf)
    ensures IsRun(s, a + b, idOf) && End(s, a + b, idOf) == End(End(s, a, idOf), b, idOf)
    decreases |a|
  {
    if a == [] {
      assert a + b == b;
    } else {
      assert (a + b)[1..] == a[1..] + b;
      RunConcat(Do(s, a[0], idOf), a[1..], b, idOf);
    }
  }

  lemma {:induction false} RunStep(s: State, a: Action, t: State, rest: seq<Action>, idOf: IdOf)
    requires CanDo(s, a) && t == Do(s, a, idOf) && IsRun(t, rest, idOf)
    ensures IsRun(s, [a] + rest, idOf) && End(s, [a] + rest, idOf) == End(t, rest, idOf)
  {
    assert ([a] + rest)[1..] == rest;
  }

  /** Three steps in a row. */
  lemma {:induction false} ThreeSteps(s: State, a: Action, b: Action, c: Action, t: State, idOf: IdOf)
    requires CanDo(s, a) && CanDo(Do(s, a, idOf), b) && CanDo(Do(Do(s, a, idOf), b, idOf), c)
    requires t == Do(Do(Do(s, a, idOf), b, idOf), c, idOf)
    ensures IsRun(s, [a, b, c], idOf) && End(s, [a, b, c], idOf) == t
  {
    var u := Do(s, a, idOf);
    var v := Do(u, b, idOf);
    assert [c] + [] == [c] && [b] + [c] == [b, c] && [a] + [b, c] == [a, b, c];
    RunStep(v, c, t, [], idOf);
    RunStep(u, b, v, [c], idOf);
    RunStep(s, a, u, [b, c], idOf);
  }

  /** The actions lead from one state to another. */
  ghost predicate Leads(s: State, actions: seq<Action>, t: State, idOf: IdOf) {
    IsRun(s, actions, idOf) && End(s, actions, idOf) == t
  }

  lemma {:induction false} LeadsOn(s: State, a: seq<Action>, t: State, b: seq<Action>, u: State, idOf: IdOf)
    requires Leads(s, a, t, idOf) && Leads(t, b, u, idOf)
    ensures Leads(s, a + b, u, idOf)
  {
    RunConcat(s, a, b, idOf);
  }

  /** A command with id 7 is sent and an answer received, which is announced. */
  const ASK: seq<Action> := [Call(7, 128), SetId, TryWaitReady]
  const ANSWER: seq<Action> := [Send(true), Receive("ab"), Check]
  const ANNOUNCE: seq<Action> := [SetLen, TryWaitDone, PostReady]
  /** The caller starts to copy, but the receiver's wait expires and it receives again. */
  const TAKE: seq<Action> := [TakeReady, Compare, Size]
  const EXPIRE: seq<Action> := [CopyByte, Expire, ZeroLen]
  const OVERWRITE: seq<Action> := [Receive("cd"), CopyByte, CopyEnd]
  const RETURN: seq<Action> := [PostDone, ResetId, Check]

  const TORN: seq<Action> := ASK + ANSWER + ANNOUNCE + TAKE + EXPIRE + OVERWRITE + RETURN

  const ASKED: State := INITIAL.(caller := Sending, callId := 7, cap := 128, expectedId := 7)
  const ANSWERED: State :=
    ASKED.(caller := Waiting, receiver := SettingLen, msg := "ab", buf := Padded("ab"), log := ["ab"], matched := 7,
      stable := true)
  const ANNOUNCED: State := ANSWERED.(receiver := AwaitingDone, curLen := 2, ready := 1, postedFor := 7)
  const TAKEN: State := ANNOUNCED.(caller := Copying, ready := 0, taken := "ab", takenStable := true, respLen := 2)
  const EXPIRED: State := TAKEN.(resp := "a", receiver := Receiving, curLen := 0)
  const OVERWRITTEN: State :=
    EXPIRED.(resp := "ad", caller := PostingDone, receiver := Checking, msg := "cd", buf := Padded("cd"),
      log := ["ab", "cd"])
  const RETURNED: State := OVERWRITTEN.(caller := Idle, done := 1, expectedId := -1, result := RetOk,
        receiver := Receiving)

  lemma {:induction false} AskAndAnswer(idOf: IdOf)
    requires idOf("ab") == Some(7)
    ensures Leads(INITIAL, ASK, ASKED, idOf) && Leads(ASKED, ANSWER, ANSWERED, idOf)
  {
    ThreeSteps(INITIAL, Call(7, 128), SetId, TryWaitReady, ASKED, idOf);
    ThreeSteps(ASKED, Send(true), Receive("ab"), Check, ANSWERED, idOf);
  }

  lemma {:induction false} AnnounceAndTake(idOf: IdOf)
    ensures Leads(ANSWERED, ANNOUNCE, ANNOUNCED, idOf) && Leads(ANNOUNCED, TAKE, TAKEN, idOf)
  {
    ThreeSteps(ANSWERED, SetLen, TryWaitDone, PostReady, ANNOUNCED, idOf);
    ThreeSteps(ANNOUNCED, TakeReady, Compare, Size, TAKEN, idOf);
  }

  lemma {:induction false} ExpireInCopy(idOf: IdOf)
    ensures Leads(TAKEN, EXPIRE, EXPIRED, idOf)
  {
    ThreeSteps(TAKEN, CopyByte, Expire, ZeroLen, EXPIRED, idOf);
  }

  lemma {:induction false} OverwriteInCopy(idOf: IdOf)
    ensures Leads(EXPIRED, OVERWRITE, OVERWRITTEN, idOf)
  {
    ThreeSteps(EXPIRED, Receive("cd"), CopyByte, CopyEnd, OVERWRITTEN, idOf);
  }

  lemma {:induction false} ReturnTorn(idOf: IdOf)
    ensures Leads(OVERWRITTEN, RETURN, RETURNED, idOf)
  {
    ThreeSteps(OVERWRITTEN, PostDone, ResetId, Check, RETURNED, idOf);
  }

  /** Seven runs in a row. */
  lemma {:induction false} SevenRuns(s0: State, a: seq<Action>, s1: State, b: seq<Action>, s2: State, c: seq<Action>,
      s3: State,
      d: seq<Action>, s4: State, e: seq<Action>, s5: State, f: seq<Action>, s6: State, g: seq<Action>, s7: State,
        idOf: IdOf)
    requires Leads(s0, a, s1, idOf) && Leads(s1, b, s2, idOf) && Leads(s2, c, s3, idOf) && Leads(s3, d, s4, idOf)
    requires Leads(s4, e, s5, idOf) && Leads(s5, f, s6, idOf) && Leads(s6, g, s7, idOf)
    ensures Leads(s0, a + b + c + d + e + f + g, s7, idOf)
  {
    LeadsOn(s0, a, s1, b, s2, idOf);
    LeadsOn(s0, a + b, s2, c, s3, idOf);
    LeadsOn(s0, a + b + c, s3, d, s4, idOf);
    LeadsOn(s0, a + b + c + d, s4, e, s5, idOf);
    LeadsOn(s0, a + b + c + d + e, s5, f, s6, idOf);
    LeadsOn(s0, a + b + c + d + e + f, s6, g, s7, idOf);
  }

  /** Two different answers to the same id, the first one overwritten in the middle of the
      copy because the wait expired: OK is returned for a mixture of both. */
  lemma {:induction false} Torn(idOf: IdOf)
    requires idOf("ab") == Some(7)
    ensures Leads(INITIAL, TORN, RETURNED, idOf)
    ensures RETURNED.caller == Idle && RETURNED.result == RetOk && RETURNED.resp !in RETURNED.log
  {
    AskAndAnswer(idOf);
    AnnounceAndTake(idOf);
    ExpireInCopy(idOf);
    OverwriteInCopy(idOf);
    ReturnTorn(idOf);
    SevenRuns(INITIAL, ASK, ASKED, ANSWER, ANSWERED, ANNOUNCE, ANNOUNCED, TAKE, TAKEN, EXPIRE, EXPIRED,
              OVERWRITE, OVERWRITTEN, RETURN, RETURNED, idOf);
  }

  // ----- a run as it should be

  ghost predicate LeadsTimely(s: State, actions: seq<Action>, t: State, idOf: IdOf) {
    Leads(s, actions, t, idOf) && IsTimely(s, actions, idOf)
  }

  lemma {:induction false} TimelyConcat(s: State, a: seq<Action>, b: seq<Action>, idOf: IdOf)
    requires IsRun(s, a, idOf) && IsTimely(s, a, idOf)
    requires IsRun(End(s, a, idOf), b, idOf) && IsTimely(End(s, a, idOf), b, idOf)
    ensures IsRun(s, a + b, idOf) && IsTimely(s, a + b, idOf)
    decreases |a|
  {
    if a == [] {
      assert a + b == b;
    } else {
      assert (a + b)[1..] == a[1..] + b;
      TimelyConcat(Do(s, a[0], idOf), a[1..], b, idOf);
    }
  }

  lemma {:induction false} TimelyOn(s: State, a: seq<Action>, t: State, b: seq<Action>, u: State, idOf: IdOf)
    requires LeadsTimely(s, a, t, idOf) && LeadsTimely(t, b, u, idOf)
    ensures LeadsTimely(s, a + b, u, idOf)
  {
    LeadsOn(s, a, t, b, u, idOf);
    TimelyConcat(s, a, b, idOf);
  }

  lemma {:induction false} TimelyStep(s: State, a: Action, t: State, rest: seq<Action>, idOf: IdOf)
    requires CanDo(s, a) && Timely(s, a) && t == Do(s, a, idOf) && IsRun(t, rest, idOf) && IsTimely(t, rest, idOf)
    ensures IsRun(s, [a] + rest, idOf) && IsTimely(s, [a] + rest, idOf)
  {
    assert ([a] + rest)[1..] == rest;
  }

  /** Three timely steps in a row. */
  lemma {:induction false} ThreeTimely(s: State, a: Action, b: Action, c: Action, t: State, idOf: IdOf)
    requires CanDo(s, a) && CanDo(Do(s, a, idOf), b) && CanDo(Do(Do(s, a, idOf), b, idOf), c)
    requires Timely(s, a) && Timely(Do(s, a, idOf), b) && Timely(Do(Do(s, a, idOf), b, idOf), c)
    requires t == Do(Do(Do(s, a, idOf), b, idOf), c, idOf)
    ensures LeadsTimely(s, [a, b, c], t, idOf)
  {
    var u := Do(s, a, idOf);
    var v := Do(u, b, idOf);
    ThreeSteps(s, a, b, c, t, idOf);
    assert [c] + [] == [c] && [b] + [c] == [b, c] && [a] + [b, c] == [a, b, c];
    TimelyStep(v, c, t, [], idOf);
    TimelyStep(u, b, v, [c], idOf);
    TimelyStep(s, a, u, [b, c], idOf);
  }

  const COPY: seq<Action> := [CopyByte, CopyByte, CopyEnd]
  const FINISH: seq<Action> := [PostDone, TakeDone, ResetId]

  const WHOLE: seq<Action> := ASK + ANSWER + ANNOUNCE + TAKE + COPY + FINISH

  const COPIED: State := TAKEN.(resp := "ab", caller := PostingDone)
  const FINISHED: State := COPIED.(caller := Idle, receiver := ZeroingLen, expectedId := -1, result := RetOk)

  lemma {:induction false} AskTimely(idOf: IdOf)
    requires idOf("ab") == Some(7)
    ensures LeadsTimely(INITIAL, ASK + ANSWER, ANSWERED, idOf)
  {
    ThreeTimely(INITIAL, Call(7, 128), SetId, TryWaitReady, ASKED, idOf);
    ThreeTimely(ASKED, Send(true), Receive("ab"), Check, ANSWERED, idOf);
    TimelyOn(INITIAL, ASK, ASKED, ANSWER, ANSWERED, idOf);
  }

  lemma {:induction false} AnnounceTimely(idOf: IdOf)
    ensures LeadsTimely(ANSWERED, ANNOUNCE, ANNOUNCED, idOf)
  {
    ThreeTimely(ANSWERED, SetLen, TryWaitDone, PostReady, ANNOUNCED, idOf);
  }

  lemma {:induction false} TakeTimely(idOf: IdOf)
    ensures LeadsTimely(ANNOUNCED, TAKE, TAKEN, idOf)
  {
    ThreeTimely(ANNOUNCED, TakeReady, Compare, Size, TAKEN, idOf);
  }

  lemma {:induction false} CopyTimely(idOf: IdOf)
    ensures LeadsTimely(TAKEN, COPY, COPIED, idOf)
  {
    var half := Do(TAKEN, CopyByte, idOf);
    assert half == TAKEN.(resp := "a") && Do(half, CopyByte, idOf) == TAKEN.(resp := "ab");
    ThreeTimely(TAKEN, CopyByte, CopyByte, CopyEnd, COPIED, idOf);
  }

  lemma {:induction false} FinishTimely(idOf: IdOf)
    ensures LeadsTimely(COPIED, FINISH, FINISHED, idOf)
  {
    ThreeTimely(COPIED, PostDone, TakeDone, ResetId, FINISHED, idOf);
  }

  /** A command is sent, answered, announced, copied and acknowledged in time: the caller
      comes back with OK and the whole answer. */
  lemma {:induction false} WholeRun(idOf: IdOf)
    requires idOf("ab") == Some(7)
    ensures LeadsTimely(INITIAL, WHOLE, FINISHED, idOf)
    ensures FINISHED.caller == Idle && FINISHED.result == RetOk && FINISHED.takenStable
    ensures FINISHED.resp == "ab" && FINISHED.callId == 7
  {
    AskTimely(idOf);
    AnnounceTimely(idOf);
    TakeTimely(idOf);
    CopyTimely(idOf);
    FinishTimely(idOf);
    TimelyOn(INITIAL, ASK + ANSWER, ANSWERED, ANNOUNCE, ANNOUNCED, idOf);
    TimelyOn(INITIAL, ASK + ANSWER + ANNOUNCE, ANNOUNCED, TAKE, TAKEN, idOf);
    TimelyOn(INITIAL, ASK + ANSWER + ANNOUNCE + TAKE, TAKEN, COPY, COPIED, idOf);
    TimelyOn(INITIAL, ASK + ANSWER + ANNOUNCE + TAKE + COPY, COPIED, FINISH, FINISHED, idOf);
  }

  // ----- PayTransaction

  /** The first test of check_response_ok. */
  function IdAccepted(response: string, expected: int, idOf: IdOf): bool { idOf(response) == Some(expected) }

  /** What a caller accepts of a stable OK: a check for an id passes exactly when it is the id
      the call awaited. */
  lemma {:induction false} AcceptedExactly(actions: seq<Action>, checked: int, idOf: IdOf)
    requires IsRun(INITIAL, actions, idOf) && IsTimely(INITIAL, actions, idOf)
    requires var s := End(INITIAL, actions, idOf); s.caller == Idle && s.result == RetOk && s.takenStable
    ensures var s := End(INITIAL, actions, idOf); IdAccepted(s.resp, checked, idOf) <==> checked == s.callId
  {
    OkMeansWholeMessage(actions, idOf);
  }

  const PAY_SENT: int := 7
  const PAY_CHECKED: int := 6

  /** PayTransaction awaits the answer to one id and accepts the answer to another: what it
      gets is refused, unless _expected_id changed while the message was being announced. */
  lemma {:induction false} PayTransactionRefuses(actions: seq<Action>, idOf: IdOf)
    requires IsRun(INITIAL, actions, idOf) && IsTimely(INITIAL, actions, idOf)
    requires var s := End(INITIAL, actions, idOf);
             s.caller == Idle && s.result == RetOk && s.callId == PAY_SENT && s.takenStable
    ensures !IdAccepted(End(INITIAL, actions, idOf).resp, PAY_CHECKED, idOf)
  {
    AcceptedExactly(actions, PAY_CHECKED, idOf);
  }
}
