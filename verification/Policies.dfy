/** Deciding the outcome: a pure function of what was gathered, never a model call. */
module Policies {
  import opened Wrappers
  import opened Candidates

  function Flagged(items: seq<string>): seq<Reason> {
    if items == [] then [] else [ModelFlagged(items[0])] + Flagged(items[1..])
  }

  function MissingReasons(c: Candidate): seq<Reason> {
    (if Covers(c.evidence, Funding) then [] else [NoEvidenceForFunding])
    + (if Covers(c.evidence, Deadline) then [] else [NoEvidenceForDeadline])
  }

  /** The outcome and the reasons for it, most conclusive first. */
  function DecideOutcome(c: Candidate): (Outcome, seq<Reason>) {
    var amountDiffers := c.amountAgrees == Some(false);
    var deadlineDiffers := c.deadlineAgrees == Some(false);
    // 1. Evidence actively against the candidate.
    if c.officialFetched && (amountDiffers || deadlineDiffers) then
      (RejectRecommended,
       (if amountDiffers then [DifferentAmount] else [])
       + (if deadlineDiffers then [DifferentDeadline] else []))
    // 2. Not enough to act on.
    else if c.officialUrl.None? then (MoreEvidenceRequired, [NoOfficialSource])
    else if !c.officialFetched then (MoreEvidenceRequired, [OfficialNotFetched])
    else if c.evidence == [] then (MoreEvidenceRequired, [NoEvidenceAtAll])
    else if MissingReasons(c) != [] then (MoreEvidenceRequired, MissingReasons(c))
    // 3. Complete and corroborated.
    else if c.amountAgrees == Some(true) && c.deadlineAgrees == Some(true) then
      if c.contradictions != [] then (ReviewRequired, Flagged(c.contradictions))
      else if c.rules == [] then (ReviewRequired, [NoEligibilityRules])
      else (AutoCheckEligible, [PageAgrees])
    // 4. Formed, but needing judgement.
    else if c.contradictions != [] then (ReviewRequired, Flagged(c.contradictions))
    else
      var silent :=
        (if c.amountAgrees.None? then [NoAmountAsserted] else [])
        + (if c.deadlineAgrees.None? then [NoDeadlineAsserted] else []);
      (ReviewRequired, if silent == [] then [InsufficientEvidence] else silent)
  }

  /** The policy as it runs, collecting its reasons on the way. */
  method Decide(c: Candidate) returns (outcome: Outcome, reasons: seq<Reason>)
    ensures (outcome, reasons) == DecideOutcome(c)
  {
    reasons := [];
    if c.officialFetched && (c.amountAgrees == Some(false) || c.deadlineAgrees == Some(false)) {
      if c.amountAgrees == Some(false) { reasons := reasons + [DifferentAmount]; }
      if c.deadlineAgrees == Some(false) { reasons := reasons + [DifferentDeadline]; }
      assert reasons == (if c.amountAgrees == Some(false) then [DifferentAmount] else [])
                        + (if c.deadlineAgrees == Some(false) then [DifferentDeadline] else []);
      return RejectRecommended, reasons;
    }
    if c.officialUrl.None? { return MoreEvidenceRequired, [NoOfficialSource]; }
    if !c.officialFetched { return MoreEvidenceRequired, [OfficialNotFetched]; }
    if c.evidence == [] { return MoreEvidenceRequired, [NoEvidenceAtAll]; }
    reasons := MissingReasons(c);
    if reasons != [] { return MoreEvidenceRequired, reasons; }
    if c.amountAgrees == Some(true) && c.deadlineAgrees == Some(true) {
      if c.contradictions != [] { return ReviewRequired, Flagged(c.contradictions); }
      if c.rules == [] { return ReviewRequired, [NoEligibilityRules]; }
      return AutoCheckEligible, [PageAgrees];
    }
    if c.contradictions != [] { return ReviewRequired, Flagged(c.contradictions); }
    if c.amountAgrees.None? { reasons := reasons + [NoAmountAsserted]; }
    if c.deadlineAgrees.None? { reasons := reasons + [NoDeadlineAsserted]; }
    assert reasons == (if c.amountAgrees.None? then [NoAmountAsserted] else [])
                      + (if c.deadlineAgrees.None? then [NoDeadlineAsserted] else []);
    if reasons == [] { reasons := [InsufficientEvidence]; }
    outcome := ReviewRequired;
  }

  function OutcomeForPageType(pageType: Option<PageType>): Option<Outcome> {
    if pageType == Some(NotAScholarship) then Some(RejectRecommended) else None
  }

  /** Some candidate ended with this outcome. */
  predicate Present(cs: seq<Candidate>, outcome: Outcome) {
    exists i | 0 <= i < |cs| :: cs[i].outcome == Some(outcome)
  }

  /** One outcome for the job: the one that most demands a human wins. */
  function RollUp(cs: seq<Candidate>): Outcome {
    if cs == [] then MoreEvidenceRequired
    else if Present(cs, ReviewRequired) then ReviewRequired
    else if Present(cs, RejectRecommended) then RejectRecommended
    else if Present(cs, MoreEvidenceRequired) then MoreEvidenceRequired
    else if Present(cs, AutoCheckEligible) then AutoCheckEligible
    else ReviewRequired
  }

  // ---- The policy on what can actually reach it ----

  /** What every candidate that reaches the decision satisfies: evidence covers a claim exactly when that
      claim's verdict is agreement, and there is no verdict without a page that was found and read. */
  ghost predicate Coupled(c: Candidate) {
    && (Covers(c.evidence, Funding) <==> c.amountAgrees == Some(true))
    && (Covers(c.evidence, Deadline) <==> c.deadlineAgrees == Some(true))
    && (c.amountAgrees.Some? || c.deadlineAgrees.Some? ==> c.officialFetched)
    && (c.officialFetched ==> c.officialUrl.Some? && c.evidence != [])
  }

  /** On coupled candidates four steps collapse to a table of the two verdicts; the last step is never reached. */
  lemma DecisionTable(c: Candidate)
    requires Coupled(c)
    ensures var outcome := DecideOutcome(c).0;
            var differs := c.amountAgrees == Some(false) || c.deadlineAgrees == Some(false);
            var agrees := c.amountAgrees == Some(true) && c.deadlineAgrees == Some(true);
            && (outcome == RejectRecommended <==> differs)
            && (outcome == AutoCheckEligible <==> agrees && c.contradictions == [] && c.rules != [])
            && (outcome == ReviewRequired <==> agrees && (c.contradictions != [] || c.rules == []))
            && (outcome == MoreEvidenceRequired <==> !differs && !agrees)
  {
    if MissingReasons(c) == [] {
      assert Covers(c.evidence, Funding) && Covers(c.evidence, Deadline);
    }
  }

  lemma {:induction false} FlaggedIs(items: seq<string>)
    ensures |Flagged(items)| == |items| && forall i | 0 <= i < |items| :: Flagged(items)[i] == ModelFlagged(items[i])
  {
    if items != [] { FlaggedIs(items[1..]); }
  }

  /** Every outcome is explained, and the explanation names what it rests on: the claim that differs, the claim whose
      evidence is missing, or what the model flagged - and nothing else of the kind. */
  lemma ReasonsExplain(c: Candidate)
    requires Coupled(c)
    ensures var (outcome, reasons) := DecideOutcome(c);
            && reasons != []
            && (DifferentAmount in reasons <==> c.amountAgrees == Some(false))
            && (DifferentDeadline in reasons <==> c.deadlineAgrees == Some(false))
            && (NoEvidenceForFunding in reasons <==>
                  outcome == MoreEvidenceRequired && c.officialFetched && c.amountAgrees != Some(true))
            && (NoEvidenceForDeadline in reasons <==>
                  outcome == MoreEvidenceRequired && c.officialFetched && c.deadlineAgrees != Some(true))
            && (forall item :: ModelFlagged(item) in reasons <==> outcome == ReviewRequired && item in c.contradictions)
            && (NoOfficialSource in reasons <==> c.officialUrl.None?)
            && (OfficialNotFetched in reasons <==> c.officialUrl.Some? && !c.officialFetched)
            && (NoEligibilityRules in reasons <==> outcome == ReviewRequired && c.contradictions == [])
            && (PageAgrees in reasons <==> outcome == AutoCheckEligible)
  {
    DecisionTable(c);
    FlaggedIs(c.contradictions);
    forall item ensures ModelFlagged(item) in Flagged(c.contradictions) <==> item in c.contradictions {
      if item in c.contradictions {
        var i :| 0 <= i < |c.contradictions| && c.contradictions[i] == item;
        assert Flagged(c.contradictions)[i] == ModelFlagged(item);
      }
    }
  }

  /** The job's answer, spelled out over its candidates. */
  lemma RollUpIff(cs: seq<Candidate>)
    requires forall i | 0 <= i < |cs| :: cs[i].outcome.Some?
    ensures RollUp(cs) == AutoCheckEligible <==>
              cs != [] && forall i | 0 <= i < |cs| :: cs[i].outcome == Some(AutoCheckEligible)
    ensures RollUp(cs) == RejectRecommended <==> Present(cs, RejectRecommended) && !Present(cs, ReviewRequired)
    ensures RollUp(cs) == ReviewRequired <==> Present(cs, ReviewRequired)
  {
    forall i | 0 <= i < |cs| ensures Present(cs, cs[i].outcome.value) {
    }
    if cs != [] {
      match cs[0].outcome.value {
        case ReviewRequired =>
        case MoreEvidenceRequired =>
        case AutoCheckEligible =>
        case RejectRecommended =>
      }
    }
    if RollUp(cs) == AutoCheckEligible {
      forall i | 0 <= i < |cs| ensures cs[i].outcome == Some(AutoCheckEligible) {
        match cs[i].outcome.value {
          case ReviewRequired =>
          case MoreEvidenceRequired =>
          case AutoCheckEligible =>
          case RejectRecommended =>
        }
      }
    }
  }
}
