/** The bounds on a session are attained: a run in which prompts are answered until the numbers start over. */
module LongestRun {
  import opened Bytes
  import opened Results
  import opened Packets
  import opened Sessions
  import opened Lockstep

  /** What the steps of a round need to know of a state that has been reached. */
  lemma ReachedFacts(c: Config, s: State)
    requires ValidConfig(c) && Reached(c, s)
    ensures s.fault == None && s.cGot <= s.sSent
    ensures s.toServer != [] ==> s.sIn == []
    ensures s.toClient != [] ==> s.cIn == []
    ensures s.cIn != [] && s.cPhase == Waiting ==> |s.cGot| + 1 == |s.sSent|
  {
    ReachedInv(c, s);
    if s.toServer != [] || s.sIn != [] {
      assert TowardsServer(c, s);
      assert |s.toServer + s.sIn| == 1;
    }
    if s.toClient != [] || s.cIn != [] {
      assert TowardsClient(c, s);
      assert |s.toClient + s.cIn| == 1;
    }
  }

  // ---------------------------------------------------------------- the bodies of the run

  const LOGIN: Body := Start(AuthenStart(1, 1, 1, 1, [], [], [], []))
  const PROMPT: Body := Reply(AuthenReply(4, false, [], []))
  const REFUSAL: Body := Reply(AuthenReply(2, false, [], []))
  const ANSWER: Body := Continue(AuthenContinue(false, []))

  lemma LoginFits()
    ensures Problem(LOGIN).None?
  {
  }

  lemma RepliesFit()
    ensures Problem(PROMPT).None? && Problem(REFUSAL).None?
  {
  }

  lemma AnswersFit()
    ensures Problem(ANSWER).None? && Problem(AbortBody([])).None?
  {
  }

  /** The codec writes every body that marshals. */
  ghost predicate CanWrite(codec: Codec) {
    forall h: Header, x: Body | Problem(x).None? :: codec.write(h, x).Some?
  }

  lemma LibraryWrites(k: Secret, h: Header, x: Body)
    requires Problem(x).None?
    ensures Library(k).write(h, x).Some?
  {
  }

  lemma LibraryCanWrite(k: Secret)
    ensures CanWrite(Library(k))
  {
    forall h: Header, x: Body | Problem(x).None? ensures Library(k).write(h, x).Some? {
      LibraryWrites(k, h, x);
    }
  }

  // ---------------------------------------------------------------- the stations of a round

  ghost predicate Talking(c: Config) {
    ValidConfig(c) && CanWrite(c.codec)
  }

  /** The client has a prompt before it, the server's n-th. */
  ghost predicate Prompted(c: Config, s: State, n: nat)
    requires Talking(c)
  {
    Reached(c, s) && s.cPhase == Ready && |s.numbers| == 2 * n && n > 0
  }

  ghost predicate OnTheWay(c: Config, s: State, n: nat)
    requires Talking(c)
  {
    Reached(c, s) && s.toServer != [] && |s.numbers| == 2 * n + 1 && s.cSent != [] && s.cSent[0].Start?
  }

  ghost predicate Queued(c: Config, s: State, n: nat)
    requires Talking(c)
  {
    Reached(c, s) && s.sIn != [] && s.sPhase == Reading && |s.numbers| == 2 * n + 1 && s.cSent != [] &&
    s.cSent[0].Start?
  }

  ghost predicate Held(c: Config, s: State, n: nat)
    requires Talking(c)
  {
    Reached(c, s) && s.sPhase == Holding && |s.numbers| == 2 * n + 1 && s.cSent != [] && s.cSent[0].Start?
  }

  // ---------------------------------------------------------------- the steps of a round

  lemma PromptedIsAtClient(c: Config, s: State, n: nat)
    requires Talking(c) && Prompted(c, s, n)
    ensures Quiet(s) && s.sPhase == Reading && s.cSent != [] && s.cSent[0].Start? && s.cSeq == SeqNo(|s.numbers| - 1)
  {
    ReachedInv(c, s);
    assert AtClient(s);
  }

  lemma Answers(c: Config, s: State, n: nat) returns (t: State)
    requires Talking(c) && Prompted(c, s, n) && n <= 127
    ensures OnTheWay(c, t, n) && t.cPhase == Waiting && t.sPhase == Reading
  {
    PromptedIsAtClient(c, s, n);
    SeqNoExact(|s.numbers| - 1);
    AnswersFit();
    t := Step(c, s, Answer([]));
    ReachedStep(c, s, Answer([]));
    assert c.codec.write(s.cHdr, ANSWER).Some?;
    assert t == ClientWrites(c, s, s.cHdr, ANSWER, Waiting);
  }

  lemma Aborts(c: Config, s: State) returns (t: State)
    requires Talking(c) && Prompted(c, s, 128)
    ensures OnTheWay(c, t, 128) && t.sPhase == Reading
  {
    PromptedIsAtClient(c, s, 128);
    SeqNoExact(|s.numbers| - 1);
    AnswersFit();
    t := Step(c, s, Answer([]));
    ReachedStep(c, s, Answer([]));
    assert c.codec.write(s.cHdr, AbortBody([])).Some?;
    assert t == ClientWrites(c, s, s.cHdr, AbortBody([]), Closed);
  }

  lemma Arrives(c: Config, s: State, n: nat) returns (t: State)
    requires Talking(c) && OnTheWay(c, s, n) && s.sPhase in {NoSession, Reading}
    ensures Queued(c, t, n) && t.cPhase == s.cPhase
  {
    ReachedFacts(c, s);
    t := Step(c, s, ServerNetwork);
    ReachedStep(c, s, ServerNetwork);
  }

  lemma IsRead(c: Config, s: State, n: nat) returns (t: State)
    requires Talking(c) && Queued(c, s, n)
    ensures Held(c, t, n) && t.cPhase == s.cPhase
  {
    t := Step(c, s, ServerRead);
    ReachedStep(c, s, ServerRead);
    ReachedFacts(c, t);
  }

  ghost predicate Returning(c: Config, s: State, n: nat)
    requires Talking(c)
  {
    Reached(c, s) && s.toClient != [] && |s.numbers| == 2 * n + 2 && s.sSent != [] && Final(s.sSent) == PROMPT
  }

  ghost predicate Delivered(c: Config, s: State, n: nat)
    requires Talking(c)
  {
    Reached(c, s) && s.cIn != [] && |s.numbers| == 2 * n + 2 && s.sSent != [] && Final(s.sSent) == PROMPT
  }

  lemma HeldIsAuthen(c: Config, s: State, n: nat)
    requires Talking(c) && Held(c, s, n)
    ensures AtServer(s) && s.sHdr[1] == TYPE_AUTHEN
  {
    ReachedInv(c, s);
    HoldingIsAtServer(c, s);
  }

  lemma Prompts(c: Config, s: State, n: nat) returns (t: State)
    requires Talking(c) && Held(c, s, n) && s.cPhase == Waiting
    ensures Returning(c, t, n) && t.cPhase == Waiting
  {
    HeldIsAuthen(c, s, n);
    RepliesFit();
    t := Step(c, s, Respond(PROMPT));
    ReachedStep(c, s, Respond(PROMPT));
    RespondStep(c, s, PROMPT);
    assert c.codec.write(ReplyHeader(c, s.sHdr), PROMPT).Some?;
  }

  lemma Refuses(c: Config, s: State, n: nat) returns (t: State)
    requires Talking(c) && Held(c, s, n)
    ensures Reached(c, t) && |t.numbers| == 2 * n + 2
  {
    HeldIsAuthen(c, s, n);
    RepliesFit();
    t := Step(c, s, Respond(REFUSAL));
    ReachedStep(c, s, Respond(REFUSAL));
    RespondStep(c, s, REFUSAL);
    assert c.codec.write(ReplyHeader(c, s.sHdr), REFUSAL).Some?;
  }

  lemma Returns(c: Config, s: State, n: nat) returns (t: State)
    requires Talking(c) && Returning(c, s, n) && s.cPhase == Waiting
    ensures Delivered(c, t, n) && t.cPhase == Waiting
  {
    ReachedFacts(c, s);
    t := Step(c, s, ClientNetwork);
    ReachedStep(c, s, ClientNetwork);
  }

  lemma PromptIsRead(c: Config, s: State, n: nat) returns (t: State)
    requires Talking(c) && Delivered(c, s, n) && s.cPhase == Waiting
    ensures Prompted(c, t, n + 1)
  {
    ReachedFacts(c, s);
    t := Step(c, s, ClientRead);
    ReachedStep(c, s, ClientRead);
    ReachedFacts(c, t);
    assert |t.cGot| == |s.sSent| && t.cGot <= t.sSent;
    assert Final(t.cGot) == PROMPT;
  }

  /** One more answer and one more prompt. */
  lemma Round(c: Config, s: State, n: nat) returns (t: State)
    requires Talking(c) && Prompted(c, s, n) && n <= 127
    ensures Prompted(c, t, n + 1)
  {
    t := Answers(c, s, n);
    t := Arrives(c, t, n);
    t := IsRead(c, t, n);
    t := Prompts(c, t, n);
    t := Returns(c, t, n);
    t := PromptIsRead(c, t, n);
  }

  lemma Begins(c: Config) returns (t: State)
    requires Talking(c)
    ensures OnTheWay(c, t, 0) && t.cPhase == Waiting && t.sPhase == NoSession
  {
    var s := Init();
    assert Run(c, []) == s;
    assert Reached(c, s);
    LoginFits();
    t := Step(c, s, Request(LOGIN));
    ReachedStep(c, s, Request(LOGIN));
    assert c.codec.write(FirstHeader(c, LOGIN), LOGIN).Some?;
  }

  lemma FirstPrompt(c: Config) returns (t: State)
    requires Talking(c)
    ensures Prompted(c, t, 1)
  {
    t := Begins(c);
    t := Arrives(c, t, 0);
    t := IsRead(c, t, 0);
    t := Prompts(c, t, 0);
    t := Returns(c, t, 0);
    t := PromptIsRead(c, t, 0);
  }

  lemma {:induction false} ManyPrompts(c: Config, n: nat) returns (t: State)
    requires Talking(c) && 1 <= n <= 128
    ensures Prompted(c, t, n)
  {
    if n == 1 {
      t := FirstPrompt(c);
    } else {
      t := ManyPrompts(c, n - 1);
      t := Round(c, t, n - 1);
    }
  }

  lemma Longest(c: Config) returns (t: State)
    requires Talking(c)
    ensures Reached(c, t) && |t.numbers| == 258
  {
    t := ManyPrompts(c, 128);
    t := Aborts(c, t);
    t := Arrives(c, t, 128);
    t := IsRead(c, t, 128);
    t := Refuses(c, t, 128);
  }

  /**
  For every secret and configuration of the library, some run has all 258 packets that a session can have: 128 prompts,
  each of them answered but the last, which the client aborts, and one more reply. Its 256th packet carries number 0 and
  the abort number 1, and no check fails.
  */
  lemma LongestRunAttained(k: Secret, id: seq<byte>, clientFlags: byte, multiplexing: bool) returns (acts: seq<Action>)
    requires |id| == 4
    ensures var s := Run(Config(Library(k), id, clientFlags, multiplexing), acts);
      |s.numbers| == 258 && s.numbers[255] == 0 && s.numbers[256] == 1 && s.fault == None
  {
    LibraryIsFaithful(k);
    LibraryCanWrite(k);
    var c := Config(Library(k), id, clientFlags, multiplexing);
    var t := Longest(c);
    acts :| Run(c, acts) == t;
    RunKeepsInv(c, acts);
    SeqNoExact(255);
    assert t.numbers[255] == SeqNo(256) == Succ(SeqNo(255));
    assert t.numbers[256] == SeqNo(257) == Succ(SeqNo(256));
  }
}
