/** What the workflow carries between nodes. */
module Candidates {
  import opened Wrappers
  import opened Urls

  datatype Outcome = ReviewRequired | MoreEvidenceRequired | AutoCheckEligible | RejectRecommended

  datatype PageType = Individual | ListPage | Aggregator | NotAScholarship

  /** The two claims a candidate needs evidence for. */
  datatype Claim = Funding | Deadline

  datatype Confidence = Explicit | ModelExtracted

  /** The official page was read, or it carries a value that agrees with a claim. */
  datatype Evidence = PageSeen(page: Url) | Agreement(claim: Claim, value: string, url: Option<Url>,
                               confidence: Confidence)

  /** Why a candidate is uncertain, or what decided it. */
  datatype Reason =
    | DifferentAmount
    | DifferentDeadline
    | OfficialNotFetched
    | NoEvidenceAtAll
    | NoEvidenceForFunding
    | NoEvidenceForDeadline
    | NoEligibilityRules
    | PageAgrees
    | NoAmountAsserted
    | NoDeadlineAsserted
    | InsufficientEvidence
    | NoOfficialSource
    | ExtractionFailed
    | ExtractionUnavailable
    | IdentifiedBySearch
    | SearchFoundOwnPage
    | NoResultNamesAward
    | NoLink
    | LinkIsOwnPage
    | LinkStaysOnSource
    | FetchFailed
    | ComparisonFailed
    | RulesExtractionFailed
    | RulesExtractionUnavailable
    | SourceNotRetrieved
    | NoFundingOpportunity
    | ModelFlagged(item: string)

  datatype Candidate = Candidate(
    title: string,
    key: string,
    url: Option<Url>,
    excerpt: string,
    discoveryId: Option<string>,
    fundingMentions: seq<string>,
    deadlineMentions: seq<string>,
    officialUrl: Option<Url>,
    officialFetched: bool,
    amountAgrees: Option<bool>,
    deadlineAgrees: Option<bool>,
    contradictions: seq<string>,
    rules: seq<string>,
    evidence: seq<Evidence>,
    outcome: Option<Outcome>,
    reasons: seq<Reason>)

  function NewCandidate(title: string, key: string, url: Option<Url>, excerpt: string, discoveryId: Option<string>)
    : Candidate
  {
    Candidate(title, key, url, excerpt, discoveryId, [], [], None, false, None, None, [], [], [], None, [])
  }

  predicate Covers(evidence: seq<Evidence>, claim: Claim) {
    exists i | 0 <= i < |evidence| :: evidence[i].Agreement? && evidence[i].claim == claim
  }

  function Because(c: Candidate, reason: Reason): Candidate {
    c.(reasons := c.reasons + [reason])
  }
}
