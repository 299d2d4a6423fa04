/**
 * `check_project_status`: polls the gateway's progress endpoint for steps
 * 0 to 19 of a custom project's creation and stops at the first reply whose
 * last status entry is a final success or a final failure.
 *
 * The gateway is a parameter: `ask(i)` is the answer to the request for
 * progress step `i`.
 */
module Status {
  import opened Common

  /** The number of progress steps the helper asks for. */
  const MaxPolls: nat := 20

  /** One entry of a progress reply; the gateway sends its flags as the strings "true" and "false". */
  datatype StatusEntry = StatusEntry(isFinal: string, isSuccess: string, error: string)

  /**
   * The answer to one progress request: falsy (a non-200 status, an
   * exception swallowed by the GET helper, or an empty body) or the `data`
   * list of a truthy body.
   */
  datatype ProgressReply = Falsy | Reply(data: seq<StatusEntry>)

  /** `True`, the `error` text of a failed creation, or the `None` of falling off the loop. */
  datatype Verdict = Succeeded | Failed(error: string) | NoVerdict

  datatype Step = Continue | Stop(verdict: Verdict)

  /** The reply has entries and its last entry carries these two flags. */
  predicate LastFlags(reply: ProgressReply, isFinal: string, isSuccess: string)
  {
    reply.Reply? && |reply.data| > 0 &&
    reply.data[|reply.data| - 1].isFinal == isFinal && reply.data[|reply.data| - 1].isSuccess == isSuccess
  }

  /** What one reply decides, looking at its last entry. */
  function Classify(reply: ProgressReply): (s: Step)
    ensures s.Stop? ==> s.verdict != NoVerdict
    ensures s == Stop(Succeeded) <==> LastFlags(reply, "true", "true")
    ensures s.Stop? && s.verdict.Failed? <==> LastFlags(reply, "true", "false")
    ensures s.Stop? && s.verdict.Failed? ==> s.verdict.error == reply.data[|reply.data| - 1].error
    ensures s == Continue <==> !LastFlags(reply, "true", "true") && !LastFlags(reply, "true", "false")
  {
    match reply
    case Falsy => Continue
    case Reply(data) =>
      if |data| == 0 then Continue
      else
        var last := data[|data| - 1];
        if last.isFinal == "true" && last.isSuccess == "true" then Stop(Succeeded)
        else if last.isFinal == "true" && last.isSuccess == "false" then Stop(Failed(last.error))
        else Continue
  }

  /** The verdict and the number of requests made. */
  datatype Poll = Poll(verdict: Verdict, polls: nat)

  /** The polling loop from step `i` on. */
  function PollFrom(ask: nat -> ProgressReply, i: nat): (p: Poll)
    requires i <= MaxPolls
    ensures i <= p.polls <= MaxPolls
    ensures p.verdict == NoVerdict ==> p.polls == MaxPolls
    decreases MaxPolls - i
  {
    if i == MaxPolls then Poll(NoVerdict, MaxPolls)
    else match Classify(ask(i))
      case Stop(v) => Poll(v, i + 1)
      case Continue => PollFrom(ask, i + 1)
  }

  /**
   * `check_project_status` with the decision taken on the last status entry;
   * `asked` lists the progress steps requested, in order.
   */
  method CheckProjectStatus(ask: nat -> ProgressReply) returns (r: Verdict, asked: seq<nat>)
    ensures Poll(r, |asked|) == PollFrom(ask, 0)
    ensures |asked| <= MaxPolls
    ensures forall k :: 0 <= k < |asked| ==> asked[k] == k
  {
    asked := [];
    for i := 0 to MaxPolls
      invariant |asked| == i
      invariant forall k :: 0 <= k < i ==> asked[k] == k
      invariant PollFrom(ask, 0) == PollFrom(ask, i)
    {
      var reply := ask(i);
      asked := asked + [i];
      if reply.Reply? && |reply.data| > 0 {
        var last := reply.data[|reply.data| - 1];
        if last.isFinal == "true" && last.isSuccess == "true" {
          return Succeeded, asked;
        } else if last.isFinal == "true" && last.isSuccess == "false" {
          return Failed(last.error), asked;
        }
      }
    }
    return NoVerdict, asked;
  }

  /**
   * The loop from step `i` either runs out after replies that are neither a
   * final success nor a final failure, or stops at the first reply at or after
   * `i` that is one of those and reports that reply's verdict.
   */
  lemma {:induction false} PollStopsAtFirstFinal(ask: nat -> ProgressReply, i: nat)
    requires i <= MaxPolls
    ensures var p := PollFrom(ask, i);
      if p.verdict == NoVerdict then
        forall j :: i <= j < MaxPolls ==> Classify(ask(j)) == Continue
      else
        i < p.polls && Classify(ask(p.polls - 1)) == Stop(p.verdict) &&
        forall j :: i <= j < p.polls - 1 ==> Classify(ask(j)) == Continue
    decreases MaxPolls - i
  {
    if i < MaxPolls && Classify(ask(i)) == Continue {
      PollStopsAtFirstFinal(ask, i + 1);
    }
  }

  /** The helper reports success exactly when some step's reply is a final success and every earlier one is neither a final success nor a final failure. */
  lemma PollSucceedsIff(ask: nat -> ProgressReply)
    ensures PollFrom(ask, 0).verdict == Succeeded <==>
      exists k :: 0 <= k < MaxPolls && Classify(ask(k)) == Stop(Succeeded) &&
                  forall j :: 0 <= j < k ==> Classify(ask(j)) == Continue
  {
    PollStopsAtFirstFinal(ask, 0);
    var p := PollFrom(ask, 0);
    if k :| 0 <= k < MaxPolls && Classify(ask(k)) == Stop(Succeeded) &&
            forall j :: 0 <= j < k ==> Classify(ask(j)) == Continue {
      assert p.verdict != NoVerdict;
      assert Classify(ask(p.polls - 1)) != Continue;
      assert p.polls - 1 == k;
    }
  }

  /**
   * The helper returns the error text `e` exactly when some step's reply is
   * a final failure carrying `e` in its last entry, and every earlier reply
   * lets the loop go on.
   */
  lemma PollFailsIff(ask: nat -> ProgressReply, e: string)
    ensures PollFrom(ask, 0).verdict == Failed(e) <==>
      exists k :: 0 <= k < MaxPolls && LastFlags(ask(k), "true", "false") &&
                  ask(k).data[|ask(k).data| - 1].error == e &&
                  forall j :: 0 <= j < k ==> Classify(ask(j)) == Continue
  {
    PollStopsAtFirstFinal(ask, 0);
    var p := PollFrom(ask, 0);
    if k :| 0 <= k < MaxPolls && LastFlags(ask(k), "true", "false") &&
            ask(k).data[|ask(k).data| - 1].error == e &&
            forall j :: 0 <= j < k ==> Classify(ask(j)) == Continue {
      assert Classify(ask(k)) == Stop(Failed(e));
      assert p.verdict != NoVerdict;
      assert Classify(ask(p.polls - 1)) != Continue;
      assert p.polls - 1 == k;
    }
    if p.verdict == Failed(e) {
      assert LastFlags(ask(p.polls - 1), "true", "false");
    }
  }

  /** The helper returns `None` exactly when none of the 20 replies is a final success or a final failure. */
  lemma PollNoVerdictIff(ask: nat -> ProgressReply)
    ensures PollFrom(ask, 0).verdict == NoVerdict <==>
      forall j :: 0 <= j < MaxPolls ==> Classify(ask(j)) == Continue
  {
    PollStopsAtFirstFinal(ask, 0);
  }

  /** Two pending replies followed by a final success: success on the third request. */
  lemma SuccessOnThirdPoll(ask: nat -> ProgressReply)
    requires ask(0) == Reply([StatusEntry("false", "false", "")])
    requires ask(1) == Falsy
    requires ask(2) == Reply([StatusEntry("false", "false", ""), StatusEntry("true", "true", "")])
    ensures PollFrom(ask, 0) == Poll(Succeeded, 3)
  {
  }

  /* The loop as written: `resp['data'][-1:]` is a list of at most one entry,
     and indexing that list with 'isFinal' raises TypeError. */

  datatype Outcome = Returned(verdict: Verdict) | Raised(error: Error)

  /** Python's `data[-1:]`: the last entry alone, or nothing for an empty list. */
  function LastSlice(data: seq<StatusEntry>): (r: seq<StatusEntry>)
    ensures |r| == if |data| == 0 then 0 else 1
    ensures |data| > 0 ==> r[0] == data[|data| - 1]
  {
    if |data| == 0 then [] else data[|data| - 1..]
  }

  /** `check_project_status` as written, from step `i` on. */
  function PollAsWritten(ask: nat -> ProgressReply, i: nat): (r: Outcome)
    requires i <= MaxPolls
    ensures r == Raised(TypeError) <==>
      exists j :: i <= j < MaxPolls && ask(j).Reply? && |ask(j).data| > 0
    decreases MaxPolls - i
  {
    if i == MaxPolls then Returned(NoVerdict)
    else match ask(i)
      case Reply(data) =>
        if |LastSlice(data)| > 0 then Raised(TypeError) else PollAsWritten(ask, i + 1)
      case Falsy => PollAsWritten(ask, i + 1)
  }

  /** As written, the loop can never report success or failure: it raises or returns `None`. */
  lemma {:induction false} AsWrittenNeverDecides(ask: nat -> ProgressReply, i: nat)
    requires i <= MaxPolls
    ensures PollAsWritten(ask, i) == Returned(NoVerdict) || PollAsWritten(ask, i) == Raised(TypeError)
    decreases MaxPolls - i
  {
    if i < MaxPolls && (ask(i).Falsy? || |ask(i).data| == 0) {
      AsWrittenNeverDecides(ask, i + 1);
    }
  }

  /** A gateway that reports a finished, successful creation at once: the written loop raises, the corrected one succeeds. */
  lemma ImmediateSuccessRaises(ask: nat -> ProgressReply)
    requires ask(0) == Reply([StatusEntry("true", "true", "")])
    ensures PollAsWritten(ask, 0) == Raised(TypeError)
    ensures PollFrom(ask, 0) == Poll(Succeeded, 1)
  {
  }
}
