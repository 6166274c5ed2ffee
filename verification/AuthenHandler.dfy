/**
The interactive login: prompt for what the start packet did not bring, then decide. The answers of the
client are an arbitrary infinite list; only as much of it is used as there are prompts.
*/
module AuthenHandler {
  import opened Bytes
  import opened Results
  import opened Packets
  import opened Sessions

  const MAX_TRIES := 5

  /** What a prompt brings back: a transport or decoding error, or the client's continue packet. */
  datatype Answer = Failed | Got(c: AuthenContinue)

  datatype Prompt = AskUser | AskPass

  datatype UserInfo = UserInfo(isOnDuty: bool, roles: nat, password: Text)

  /** The server's end of the session: each prompt writes one packet and reads the next. */
  class ServerSession {
    const answers: nat -> Answer
    var prompts: seq<Prompt>
    var hdrSeqNo: byte

    /** The start packet is number 1. */
    constructor (answers: nat -> Answer)
      ensures this.answers == answers && prompts == [] && hdrSeqNo == 1
    {
      this.answers, prompts, hdrSeqNo := answers, [], 1;
    }

    /** When every prompt is answered, n of them leave the client's packet number 2n+1 in the header. */
    ghost predicate Numbered()
      reads this
    {
      (forall i :: answers(i).Got?) && hdrSeqNo == SeqNo(2 * |prompts| + 1)
    }

    method Ask(p: Prompt) returns (r: Answer)
      modifies this
      ensures prompts == old(prompts) + [p] && r == answers(|old(prompts)|)
      ensures hdrSeqNo == if r.Failed? then old(hdrSeqNo) else Succ(Succ(old(hdrSeqNo)))
      ensures old(Numbered()) ==> Numbered()
    {
      assert SeqNo(2 * |prompts| + 3) == Succ(Succ(SeqNo(2 * |prompts| + 1)));
      r := answers(|prompts|);
      prompts := prompts + [p];
      if r.Got? {
        hdrSeqNo := Succ(Succ(hdrSeqNo));
      }
    }
  }

  /**
  The first nonempty text among the answers from `from` on, looking at no more than `tries` of them and
  at none after an error or an abort; with it, the index after it.
  */
  function FirstText(answers: nat -> Answer, from: nat, tries: nat): (r: Option<(Text, nat)>)
    ensures r.Some? ==> r.value.0 != [] && from < r.value.1 <= from + tries
    decreases tries
  {
    if tries == 0 then None
    else
      match answers(from)
      case Failed => None
      case Got(c) =>
        if c.abort then None
        else if c.message != [] then Some((c.message, from + 1))
        else FirstText(answers, from + 1, tries - 1)
  }

  /** User name and password: the name from the start packet if it has one. */
  function Credentials(user: Text, answers: nat -> Answer): Option<(Text, Text)> {
    var name: Option<(Text, nat)> := if user != [] then Some((user, 0)) else FirstText(answers, 0, MAX_TRIES);
    match name
    case None => None
    case Some((u, next)) =>
      match FirstText(answers, next, MAX_TRIES)
      case None => None
      case Some((p, _)) => Some((u, p))
  }

  /** An existing user, the right password, and on duty or in some role. */
  predicate Admitted(users: map<Text, UserInfo>, check: (Text, Text) -> bool, user: Text, pass: Text) {
    user in users && check(pass, users[user].password) && (users[user].isOnDuty || users[user].roles > 0)
  }

  /** One of the two prompt loops of `HandleAuthenStart`: None stands for the early Fail reply. */
  method PromptFor(s: ServerSession, p: Prompt) returns (r: Option<Text>)
    modifies s
    ensures var n := |old(s.prompts)|;
            && |s.prompts| <= n + MAX_TRIES + 1 && old(s.prompts) <= s.prompts
            && (forall i | n <= i < |s.prompts| :: s.prompts[i] == p)
            && match FirstText(s.answers, n, MAX_TRIES)
               case None => r == None
               case Some((text, next)) => r == Some(text) && |s.prompts| == next
    ensures old(s.Numbered()) ==> s.Numbered()
  {
    ghost var n := |s.prompts|;
    var text := [];
    var num := 0;
    while text == []
      invariant 0 <= num <= MAX_TRIES && |s.prompts| == n + num && old(s.prompts) <= s.prompts
      invariant forall i | n <= i < |s.prompts| :: s.prompts[i] == p
      invariant FirstText(s.answers, n, MAX_TRIES)
             == if text == [] then FirstText(s.answers, n + num, MAX_TRIES - num) else Some((text, n + num))
      invariant old(s.Numbered()) ==> s.Numbered()
      decreases MAX_TRIES + 1 - num, text == []
    {
      num := num + 1;
      var c := s.Ask(p);
      if c.Failed? || c.c.abort || num > MAX_TRIES {
        return None;
      }
      text := c.c.message;
    }
    return Some(text);
  }

  /** `HandleAuthenStart`: the status of the reply is Pass or Fail. */
  method HandleAuthenStart(user: Text, s: ServerSession, users: map<Text, UserInfo>, check: (Text, Text) -> bool)
    returns (pass: bool)
    requires s.prompts == [] && s.hdrSeqNo == 1
    modifies s
    ensures pass <==> match Credentials(user, s.answers)
                      case None => false
                      case Some((u, p)) => Admitted(users, check, u, p)
    ensures |s.prompts| <= 11
    ensures (forall i :: s.answers(i).Got?) ==> Succ(s.hdrSeqNo) as nat == 2 * |s.prompts| + 2 <= 24
  {
    assert SeqNo(1) == Succ(SeqNo(0));
    assert forall n: nat | n <= 12 :: SeqNo(2 * n + 2) as nat == 2 * n + 2 by {
      forall n: nat | n <= 12 { SeqNoExact(2 * n + 2); }
    }
    var name := user;
    if name == [] {
      var asked := PromptFor(s, AskUser);
      if asked == None { return false; }
      name := asked.value;
    }
    var given := PromptFor(s, AskPass);
    if given == None { return false; }
    if name !in users { return false; }
    var info := users[name];
    var good := check(given.value, info.password);
    if !good { return false; }
    if info.isOnDuty { return true; }
    return info.roles > 0;
  }

  /** The bound of eleven prompts is met: a name on the fifth attempt, then six times no password. */
  lemma ElevenPrompts(answers: nat -> Answer, name: Text)
    requires name != []
    requires forall i: nat :: answers(i) == Got(AuthenContinue(false, if i == 4 then name else []))
    ensures FirstText(answers, 0, MAX_TRIES) == Some((name, 5))
    ensures FirstText(answers, 5, MAX_TRIES) == None
    ensures Credentials([], answers) == None
  {
    assert FirstText(answers, 4, 1) == Some((name, 5));
    assert FirstText(answers, 3, 2) == Some((name, 5));
    assert FirstText(answers, 2, 3) == Some((name, 5));
    assert FirstText(answers, 1, 4) == Some((name, 5));
    assert FirstText(answers, 10, 0) == None;
    assert FirstText(answers, 9, 1) == None;
    assert FirstText(answers, 8, 2) == None;
    assert FirstText(answers, 7, 3) == None;
    assert FirstText(answers, 6, 4) == None;
  }
}
