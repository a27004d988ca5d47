/** One exchange with a record server: a truncated reply over UDP is asked for again over TCP, and
    only a complete reply to the question is read. */
module DnsExchange {
  import opened Outcomes
  import opened DnsData

  datatype Question = Question(name: string, kind: nat, qclass: nat)

  /** What comes back over a network: nothing, bytes without a header, or a header with its
      questions and records where they can be parsed. */
  datatype Reply =
    | Silence(reason: string)
    | Garbled(reason: string)
    | Reply(response: bool, id: nat, opcode: nat, questions: Option<seq<Question>>, truncated: bool, rcode: nat,
            answers: Result<seq<Resource>, string>)

  datatype Refusal = Transport(reason: string) | BadHeader | OtherQuestion | TruncatedTcp | Code(rcode: nat)

  predicate SameQuestion(a: Question, b: Question) {
    a.kind == b.kind && a.qclass == b.qclass && Fold(a.name) == Fold(b.name)
  }

  /** The reply is to this query, whether or not it is complete. */
  predicate Answers(reply: Reply, id: nat, question: Question) {
    && reply.Reply? && reply.response && reply.id == id && reply.opcode == 0
    && reply.questions.Some? && |reply.questions.value| == 1 && SameQuestion(reply.questions.value[0], question)
  }

  /** The reply over TCP decides exactly when the one over UDP is a truncated answer. */
  method Exchange(udp: Reply, tcp: Reply, id: nat, question: Question)
    returns (r: Result<seq<Resource>, Refusal>, overTcp: bool)
    ensures overTcp <==> Answers(udp, id, question) && udp.truncated
    ensures var reply := if overTcp then tcp else udp;
      && (r.Ok? <==> Answers(reply, id, question) && !reply.truncated && reply.rcode == 0 && reply.answers.Ok?)
      && (r.Ok? ==> reply.answers == Ok(r.value))
      && (r == Err(TruncatedTcp) <==> Answers(reply, id, question) && reply.truncated)
      && (forall rcode :: r == Err(Code(rcode)) <==>
            Answers(reply, id, question) && !reply.truncated && reply.rcode == rcode != 0)
      && (forall reason :: r == Err(Transport(reason)) <==>
            || reply == Silence(reason) || reply == Garbled(reason)
            || (Answers(reply, id, question) && !reply.truncated && reply.rcode == 0 && reply.answers == Err(reason)))
      && (r == Err(BadHeader) <==> reply.Reply? && !(reply.response && reply.id == id && reply.opcode == 0))
  {
    for network := 0 to 2
      invariant network > 0 ==> Answers(udp, id, question) && udp.truncated
      invariant network < 2
    {
      overTcp := network == 1;
      var reply := if overTcp then tcp else udp;
      if !reply.Reply? { return Err(Transport(reply.reason)), overTcp; }
      if !reply.response || reply.id != id || reply.opcode != 0 { return Err(BadHeader), overTcp; }
      if reply.questions.None? || |reply.questions.value| != 1 || !SameQuestion(reply.questions.value[0], question) {
        return Err(OtherQuestion), overTcp;
      }
      if reply.truncated {
        if !overTcp { continue; }
        return Err(TruncatedTcp), overTcp;
      }
      if reply.rcode != 0 { return Err(Code(reply.rcode)), overTcp; }
      if reply.answers.Err? { return Err(Transport(reply.answers.error)), overTcp; }
      return Ok(reply.answers.value), overTcp;
    }
    assert false;
  }

  /** The reply repeats the question, in letters of either case, under the query's number. */
  ghost predicate Echoes(reply: Reply, id: nat, question: Question) {
    match reply
    case Reply(response, number, opcode, questions, _, _, _) =>
      && response && number == id && opcode == 0
      && exists name :: questions == Some([Question(name, question.kind, question.qclass)])
                        && SameLetters(name, question.name)
    case _ => false
  }

  lemma AnswersExactly(reply: Reply, id: nat, question: Question)
    ensures Answers(reply, id, question) <==> Echoes(reply, id, question)
  {
    hide Fold, SameLetters;
    if reply.Reply? && reply.questions.Some? && |reply.questions.value| == 1 {
      assert reply.questions.value == [reply.questions.value[0]];
      FoldExactly(reply.questions.value[0].name, question.name);
    }
  }
}
