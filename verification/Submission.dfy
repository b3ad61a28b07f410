/** Handing a run's results back to the product: proposals only, each at its own discovery. */
module Submission {
  import opened Wrappers
  import opened Candidates
  import opened Strings

  /** A row of the product's reply; "" for a missing id. */
  datatype ReplyItem = ReplyItem(title: string, discoveryId: string)

  /** The calls that reach the product, successful or not. */
  datatype Write =
    | CreateCandidates(titles: seq<string>)
    | AttachEvidence(id: string, evidence: seq<Evidence>)
    | RecordRun(id: string, outcome: Outcome)
    | RequestReview(id: string)

  /** A line of the run's notes; a line about a failed call or an opened review tells which call it was. */
  datatype SubmitNote =
    | NotConfigured
    | Submitted(created: nat, duplicates: nat)
    | Failed(call: Write)
    | ReviewOpened(id: string)

  predicate HasId(id: Option<string>) {
    id.Some? && id.value != ""
  }

  predicate IsPending(title: string, id: Option<string>) {
    !HasId(id) && title != ""
  }

  /** The id echoed for a title; the last one when a title is echoed more than once. */
  function IdFor(results: seq<ReplyItem>, title: string): Option<string> {
    if results == [] then None
    else
      var last := results[|results| - 1];
      if last.discoveryId != "" && last.title == title then Some(last.discoveryId)
      else IdFor(results[..|results| - 1], title)
  }

  /** The id taken for a title is the last one the reply gives for it, rows without an id aside. */
  lemma {:induction false} IdForIsLast(results: seq<ReplyItem>, title: string, id: string)
    ensures IdFor(results, title) == Some(id) <==>
            exists k | 0 <= k < |results| && results[k] == ReplyItem(title, id) ::
              id != "" && forall l | k < l < |results| :: results[l].title != title || results[l].discoveryId == ""
  {
    if results != [] {
      var front, last := results[..|results| - 1], results[|results| - 1];
      IdForIsLast(front, title, id);
      assert forall k | 0 <= k < |front| :: front[k] == results[k];
      if IdFor(results, title) == Some(id) {
        if last == ReplyItem(title, id) {
          assert results[|results| - 1] == ReplyItem(title, id);
        } else {
          var k :| 0 <= k < |front| && front[k] == ReplyItem(title, id) && id != ""
                   && forall l | k < l < |front| :: front[l].title != title || front[l].discoveryId == "";
          assert results[k] == ReplyItem(title, id);
        }
      }
      forall k | && 0 <= k < |results| && results[k] == ReplyItem(title, id) && id != ""
                 && forall l | k < l < |results| :: results[l].title != title || results[l].discoveryId == ""
        ensures IdFor(results, title) == Some(id)
      {
        if k < |front| { assert front[k] == ReplyItem(title, id); }
      }
    }
  }

  function PendingTitles(cs: seq<Candidate>): seq<string> {
    if cs == [] then []
    else
      var front, last := PendingTitles(cs[..|cs| - 1]), cs[|cs| - 1];
      if IsPending(last.title, last.discoveryId) then front + [last.title] else front
  }

  /** What a reply does to a candidate. */
  function Identified(c: Candidate, results: seq<ReplyItem>): Candidate {
    if IsPending(c.title, c.discoveryId) then c.(discoveryId := IdFor(results, c.title)) else c
  }

  function IdentifiedAll(cs: seq<Candidate>, results: seq<ReplyItem>): (r: seq<Candidate>)
    ensures |r| == |cs| && forall i | 0 <= i < |cs| :: r[i] == Identified(cs[i], results)
  {
    seq(|cs|, i requires 0 <= i < |cs| => Identified(cs[i], results))
  }

  function EvidenceCalls(id: string, c: Candidate): seq<Write> {
    if c.evidence == [] then [] else [AttachEvidence(id, c.evidence)]
  }

  function RunCalls(id: string, c: Candidate): seq<Write> {
    if c.outcome.None? then [] else [RecordRun(id, c.outcome.value)]
  }

  function ReviewCalls(shadow: bool, id: string, c: Candidate): seq<Write> {
    if shadow || c.outcome != Some(ReviewRequired) then [] else [RequestReview(id)]
  }

  /** The calls made for one candidate. */
  function WritesFor(shadow: bool, c: Candidate): seq<Write> {
    if !HasId(c.discoveryId) then []
    else
      var id := c.discoveryId.value;
      EvidenceCalls(id, c) + RunCalls(id, c) + ReviewCalls(shadow, id, c)
  }

  function WritesForAll(shadow: bool, cs: seq<Candidate>): seq<Write> {
    if cs == [] then [] else WritesForAll(shadow, cs[..|cs| - 1]) + WritesFor(shadow, cs[|cs| - 1])
  }

  // ---- The calls that are due ----

  /** The call is due for this candidate: it has an id, and the evidence, the outcome, or - outside shadow mode - the
      outcome that calls for a review. */
  ghost predicate DueFor(shadow: bool, c: Candidate, call: Write) {
    && c.discoveryId.Some? && c.discoveryId.value != ""
    && match call
       case CreateCandidates(_) => false
       case AttachEvidence(id, evidence) => id == c.discoveryId.value && evidence == c.evidence != []
       case RecordRun(id, outcome) => id == c.discoveryId.value && c.outcome == Some(outcome)
       case RequestReview(id) => id == c.discoveryId.value && c.outcome == Some(ReviewRequired) && !shadow
  }

  ghost predicate DueForSome(shadow: bool, cs: seq<Candidate>, call: Write) {
    exists c | c in cs :: DueFor(shadow, c, call)
  }

  /** The order of one candidate's calls. */
  function Turn(call: Write): nat {
    match call
    case CreateCandidates(_) => 0
    case AttachEvidence(_, _) => 1
    case RecordRun(_, _) => 2
    case RequestReview(_) => 3
  }

  /** Exactly the candidate's due calls, each once: evidence, then run, then review. */
  ghost predicate InTurn(shadow: bool, c: Candidate, calls: seq<Write>) {
    && (forall call :: call in calls <==> DueFor(shadow, c, call))
    && (forall i, j | 0 <= i < j < |calls| :: Turn(calls[i]) < Turn(calls[j]))
  }

  lemma WritesInTurn(shadow: bool, c: Candidate, calls: seq<Write>)
    requires calls == WritesFor(shadow, c)
    ensures InTurn(shadow, c, calls)
  {
    if HasId(c.discoveryId) {
      var id := c.discoveryId.value;
      var e, r, v := EvidenceCalls(id, c), RunCalls(id, c), ReviewCalls(shadow, id, c);
      forall call ensures call in e + r + v <==> call in e || call in r || call in v {
      }
    }
  }

  /** A call is made for the candidates exactly when it is due for one of them: none is missing, none is stray. */
  lemma {:induction false} CallMadeIffDue(shadow: bool, cs: seq<Candidate>, call: Write)
    ensures call in WritesForAll(shadow, cs) <==> DueForSome(shadow, cs, call)
  {
    if cs != [] {
      var front, last := cs[..|cs| - 1], cs[|cs| - 1];
      CallMadeIffDue(shadow, front, call);
      WritesInTurn(shadow, last, WritesFor(shadow, last));
      assert cs == front + [last];
      assert call in WritesForAll(shadow, cs) <==>
             call in WritesForAll(shadow, front) || call in WritesFor(shadow, last);
    }
  }

  lemma {:induction false} WritesGrow(shadow: bool, cs: seq<Candidate>, i: nat)
    requires i <= |cs|
    ensures WritesForAll(shadow, cs[..i]) <= WritesForAll(shadow, cs)
  {
    if i < |cs| {
      var front := cs[..|cs| - 1];
      assert front[..i] == cs[..i];
      WritesGrow(shadow, front, i);
    } else {
      assert cs[..i] == cs;
    }
  }

  /** Each candidate's calls stand together, in turn, right behind those of the candidates before it. */
  lemma CallsInTurn(shadow: bool, cs: seq<Candidate>, i: nat) returns (from: nat, to: nat)
    requires i < |cs|
    ensures from <= to <= |WritesForAll(shadow, cs)|
    ensures from == |WritesForAll(shadow, cs[..i])| && to == |WritesForAll(shadow, cs[..i + 1])|
    ensures InTurn(shadow, cs[i], WritesForAll(shadow, cs)[from..to])
  {
    from, to := Block(shadow, cs, i);
    WritesInTurn(shadow, cs[i], WritesForAll(shadow, cs)[from..to]);
  }

  lemma Block(shadow: bool, cs: seq<Candidate>, i: nat) returns (from: nat, to: nat)
    requires i < |cs|
    ensures from <= to <= |WritesForAll(shadow, cs)|
    ensures from == |WritesForAll(shadow, cs[..i])| && to == |WritesForAll(shadow, cs[..i + 1])|
    ensures WritesForAll(shadow, cs)[from..to] == WritesFor(shadow, cs[i])
  {
    var before, upTo, all := WritesForAll(shadow, cs[..i]), WritesForAll(shadow, cs[..i + 1]), WritesForAll(shadow, cs);
    from, to := |before|, |upTo|;
    WritesGrow(shadow, cs, i + 1);
    assert cs[..i + 1][..i] == cs[..i];
    SliceOf(before, WritesFor(shadow, cs[i]), all);
  }

  lemma SliceOf(before: seq<Write>, part: seq<Write>, all: seq<Write>)
    requires before + part <= all
    ensures all[|before|..|before| + |part|] == part
  {
  }

  /** The titles sent for creation are those of the titled candidates without an id, in order, and no others. */
  lemma {:induction false} PendingAre(cs: seq<Candidate>) returns (at: seq<nat>)
    ensures |at| == |PendingTitles(cs)| && Rising(at)
    ensures forall k | 0 <= k < |at| :: at[k] < |cs| && PendingTitles(cs)[k] == cs[at[k]].title
    ensures forall i | 0 <= i < |cs| ::
              i in at <==> cs[i].title != "" && (cs[i].discoveryId.None? || cs[i].discoveryId.value == "")
  {
    if cs == [] {
      at := [];
    } else {
      var front, last := cs[..|cs| - 1], cs[|cs| - 1];
      at := PendingAre(front);
      assert forall i | 0 <= i < |front| :: front[i] == cs[i];
      assert |front| !in at;
      if IsPending(last.title, last.discoveryId) { at := at + [|cs| - 1]; }
    }
  }

  /** How the product answers: it refuses the k-th call when `refused(k)`. */
  datatype Replies = Replies(refused: nat -> bool, opensTask: string -> bool, results: seq<ReplyItem>, created: nat,
                             duplicates: nat)

  /** Pieces of evidence in the accepted attachments among the calls from number `from` on. */
  function Accepted(replies: Replies, from: nat, writes: seq<Write>): nat {
    if |writes| <= from then 0
    else
      var k := |writes| - 1;
      Accepted(replies, from, writes[..k])
      + (if writes[k].AttachEvidence? && !replies.refused(k) then |writes[k].evidence| else 0)
  }

  /** The line a call leaves in the notes: every refusal, what was created, and a review task that was opened. */
  function NoteOf(replies: Replies, refused: bool, call: Write): seq<SubmitNote> {
    if refused then [Failed(call)]
    else if call.CreateCandidates? then [Submitted(replies.created, replies.duplicates)]
    else if call.RequestReview? && replies.opensTask(call.id) then [ReviewOpened(call.id)]
    else []
  }

  /** The lines of the calls from number `from` on, in call order. */
  function NotesOf(replies: Replies, from: nat, writes: seq<Write>): seq<SubmitNote> {
    if |writes| <= from then []
    else
      var k := |writes| - 1;
      NotesOf(replies, from, writes[..k]) + NoteOf(replies, replies.refused(k), writes[k])
  }

  /** A candidate as the process holds it: an object whose id is filled in later. */
  class Draft {
    const data: Candidate
    var discoveryId: Option<string>

    constructor (c: Candidate)
      ensures data == c && discoveryId == c.discoveryId
    {
      data := c;
      discoveryId := c.discoveryId;
    }

    function Value(): Candidate
      reads this
    {
      data.(discoveryId := discoveryId)
    }
  }

  function ValuesOf(ds: seq<Draft>): (cs: seq<Candidate>)
    reads ds
    ensures |cs| == |ds| && forall i | 0 <= i < |ds| :: cs[i] == ds[i].Value()
  {
    if ds == [] then [] else ValuesOf(ds[..|ds| - 1]) + [ds[|ds| - 1].Value()]
  }

  class Product {
    var writes: seq<Write>
    const replies: Replies

    constructor (replies: Replies)
      ensures writes == [] && this.replies == replies
    {
      writes, this.replies := [], replies;
    }

    method Call(w: Write) returns (ok: bool)
      modifies this
      ensures writes == old(writes) + [w]
      ensures ok == !replies.refused(|old(writes)|)
    {
      ok := !replies.refused(|writes|);
      writes := writes + [w];
    }
  }

  /** The notes of a run, which every step appends to. */
  class Notes {
    var lines: seq<SubmitNote>

    constructor ()
      ensures lines == []
    {
      lines := [];
    }

    method Append(line: SubmitNote)
      modifies this
      ensures lines == old(lines) + [line]
    {
      lines := lines + [line];
    }
  }

  /** The notes tell of the calls made since call number `from` and of nothing else, and those calls attached
      `evidence` pieces. */
  ghost predicate Tells(product: Product, from: nat, evidence: nat, notes: Notes)
    reads product, notes
  {
    && from <= |product.writes|
    && evidence == Accepted(product.replies, from, product.writes)
    && notes.lines == NotesOf(product.replies, from, product.writes)
  }

  lemma {:induction false} NotesOfNext(replies: Replies, from: nat, writes: seq<Write>, w: Write)
    requires from <= |writes|
    ensures NotesOf(replies, from, writes + [w]) ==
            NotesOf(replies, from, writes) + NoteOf(replies, replies.refused(|writes|), w)
    ensures Accepted(replies, from, writes + [w]) ==
            Accepted(replies, from, writes)
            + if w.AttachEvidence? && !replies.refused(|writes|) then |w.evidence| else 0
  {
    assert (writes + [w])[..|writes|] == writes;
  }

  method Load(cs: seq<Candidate>) returns (ds: seq<Draft>)
    ensures |ds| == |cs| && forall i | 0 <= i < |ds| :: fresh(ds[i]) && ds[i].Value() == cs[i] && ds[i].data == cs[i]
  {
    ds := [];
    for i := 0 to |cs|
      invariant |ds| == i
      invariant forall k | 0 <= k < i :: fresh(ds[k]) && ds[k].Value() == cs[k] && ds[k].data == cs[k]
    {
      var d := new Draft(cs[i]);
      ds := ds + [d];
    }
  }

  method ByTitle(results: seq<ReplyItem>) returns (byTitle: map<string, string>)
    ensures forall t :: IdFor(results, t) == if t in byTitle then Some(byTitle[t]) else None
  {
    byTitle := map[];
    for i := 0 to |results|
      invariant forall t :: IdFor(results[..i], t) == if t in byTitle then Some(byTitle[t]) else None
    {
      assert results[..i + 1][..i] == results[..i];
      if results[i].discoveryId != "" { byTitle := byTitle[results[i].title := results[i].discoveryId]; }
    }
    assert results[..|results|] == results;
  }

  ghost predicate IsPendingOf(pending: seq<Draft>, ds: seq<Draft>)
    reads ds
  {
    && (forall d | d in pending :: d in ds)
    && (forall d | d in ds :: d in pending <==> IsPending(d.data.title, d.discoveryId))
  }

  method Gather(ds: seq<Draft>) returns (pending: seq<Draft>, titles: seq<string>)
    ensures titles == PendingTitles(ValuesOf(ds)) && |pending| == |titles|
    ensures IsPendingOf(pending, ds)
  {
    ghost var cs := ValuesOf(ds);
    pending, titles := [], [];
    for i := 0 to |ds|
      invariant |pending| == |titles| && titles == PendingTitles(cs[..i])
      invariant IsPendingOf(pending, ds[..i])
    {
      assert cs[..i + 1][..i] == cs[..i] && ds[..i + 1] == ds[..i] + [ds[i]];
      if IsPending(ds[i].data.title, ds[i].discoveryId) {
        pending, titles := pending + [ds[i]], titles + [ds[i].data.title];
      }
    }
    assert cs[..|ds|] == cs && ds[..|ds|] == ds;
  }

  /** `pending` holds the very objects of `ds`, so filling one in fills the other. */
  method FillIn(pending: seq<Draft>, ds: seq<Draft>, results: seq<ReplyItem>)
    requires IsPendingOf(pending, ds)
    modifies ds
    ensures ValuesOf(ds) == IdentifiedAll(old(ValuesOf(ds)), results)
  {
    var byTitle := ByTitle(results);
    for i := 0 to |pending|
      invariant forall d | d in ds :: d.discoveryId ==
                  if d in pending[..i] then IdFor(results, d.data.title) else old(d.discoveryId)
    {
      var title := pending[i].data.title;
      pending[i].discoveryId := if title in byTitle then Some(byTitle[title]) else None;
      assert pending[..i + 1] == pending[..i] + [pending[i]];
    }
    assert pending[..|pending|] == pending;
  }

  /** Ask the product to create what has no id, and take the ids it echoes. A refusal leaves every id as it was. */
  method SubmitCandidates(product: Product, ds: seq<Draft>, ghost from: nat, ghost total: nat, notes: Notes)
    requires Tells(product, from, total, notes)
    modifies product, notes, ds
    ensures var titles := PendingTitles(old(ValuesOf(ds)));
            product.writes == old(product.writes) + (if titles == [] then [] else [CreateCandidates(titles)])
    ensures var cs := old(ValuesOf(ds));
            var refused := product.replies.refused(|old(product.writes)|);
            ValuesOf(ds) ==
            if PendingTitles(cs) == [] || refused then cs else IdentifiedAll(cs, product.replies.results)
    ensures Tells(product, from, total, notes)
  {
    var pending, titles := Gather(ds);
    if pending != [] { SubmitPending(product, pending, titles, ds, from, total, notes); }
  }

  method SubmitPending(product: Product, pending: seq<Draft>, titles: seq<string>, ds: seq<Draft>, ghost from: nat,
                       ghost total: nat, notes: Notes)
    requires IsPendingOf(pending, ds) && Tells(product, from, total, notes)
    modifies product, notes, ds
    ensures product.writes == old(product.writes) + [CreateCandidates(titles)]
    ensures ValuesOf(ds) == if product.replies.refused(|old(product.writes)|) then old(ValuesOf(ds))
                            else IdentifiedAll(old(ValuesOf(ds)), product.replies.results)
    ensures Tells(product, from, total, notes)
  {
    var ok := Create(product, titles, from, total, notes);
    if ok { FillIn(pending, ds, product.replies.results); }
  }

  method Create(product: Product, titles: seq<string>, ghost from: nat, ghost total: nat, notes: Notes)
    returns (ok: bool)
    requires Tells(product, from, total, notes)
    modifies product, notes
    ensures ok == !product.replies.refused(|old(product.writes)|)
    ensures product.writes == old(product.writes) + [CreateCandidates(titles)]
    ensures Tells(product, from, total, notes)
  {
    NotesOfNext(product.replies, from, product.writes, CreateCandidates(titles));
    ok := product.Call(CreateCandidates(titles));
    if ok { notes.Append(Submitted(product.replies.created, product.replies.duplicates)); }
    else { notes.Append(Failed(CreateCandidates(titles))); }
  }

  function JobOutcome(overall: Option<Outcome>): Outcome {
    if overall.Some? then overall.value else MoreEvidenceRequired
  }

  /** Write the run back. Nothing it does can fail the run: a refused call costs only that call, and without a product
      nothing is tried. */
  method SubmitToProduct(product: Product?, shadow: bool, parentId: string, overall: Option<Outcome>,
                         cs: seq<Candidate>)
    returns (out: seq<Candidate>, evidence: nat, lines: seq<SubmitNote>)
    modifies if product == null then {} else {product}
    ensures product == null ==> out == cs && evidence == 0 && lines == [NotConfigured]
    ensures product != null ==>
              var titles := if shadow then [] else PendingTitles(cs);
              var n := |old(product.writes)|;
              && out == (if titles == [] || product.replies.refused(n) then cs
                         else IdentifiedAll(cs, product.replies.results))
              && product.writes == old(product.writes) + (if titles == [] then [] else [CreateCandidates(titles)])
                                   + WritesForAll(shadow, out) + [RecordRun(parentId, JobOutcome(overall))]
              && evidence == Accepted(product.replies, n, product.writes)
              && lines == NotesOf(product.replies, n, product.writes)
    ensures product != null ==>
              && (forall call :: call in WritesForAll(shadow, out) <==> DueForSome(shadow, out, call))
              && product.writes[|product.writes| - 1] ==
                 RecordRun(parentId, if overall.Some? then overall.value else MoreEvidenceRequired)
  {
    forall cs, call ensures call in WritesForAll(shadow, cs) <==> DueForSome(shadow, cs, call) {
      CallMadeIffDue(shadow, cs, call);
    }
    if product == null { return cs, 0, [NotConfigured]; }
    ghost var from := |product.writes|;
    var notes := new Notes();
    out := Identify(product, shadow, cs, from, 0, notes);
    evidence := SubmitEach(product, shadow, out, from, 0, notes);
    Record(product, RecordRun(parentId, JobOutcome(overall)), from, evidence, notes);
    lines := notes.lines;
  }

  method Identify(product: Product, shadow: bool, cs: seq<Candidate>, ghost from: nat, ghost total: nat, notes: Notes)
    returns (out: seq<Candidate>)
    requires Tells(product, from, total, notes)
    modifies product, notes
    ensures var titles := if shadow then [] else PendingTitles(cs);
            var refused := product.replies.refused(|old(product.writes)|);
            && product.writes == old(product.writes) + (if titles == [] then [] else [CreateCandidates(titles)])
            && out == (if titles == [] || refused then cs else IdentifiedAll(cs, product.replies.results))
    ensures Tells(product, from, total, notes)
  {
    var ds := Load(cs);
    assert ValuesOf(ds) == cs;
    if !shadow { SubmitCandidates(product, ds, from, total, notes); }
    out := Dump(ds);
  }

  lemma {:induction false} WritesForNext(before: seq<Write>, shadow: bool, cs: seq<Candidate>, i: nat)
    requires i < |cs|
    ensures before + WritesForAll(shadow, cs[..i]) + WritesFor(shadow, cs[i]) ==
            before + WritesForAll(shadow, cs[..i + 1])
  {
    assert cs[..i + 1][..i] == cs[..i];
    Associative(before, WritesForAll(shadow, cs[..i]), WritesFor(shadow, cs[i]));
  }

  method SubmitEach(product: Product, shadow: bool, cs: seq<Candidate>, ghost from: nat, ghost total: nat, notes: Notes)
    returns (evidence: nat)
    requires Tells(product, from, total, notes)
    modifies product, notes
    ensures product.writes == old(product.writes) + WritesForAll(shadow, cs)
    ensures Tells(product, from, total + evidence, notes)
  {
    evidence := 0;
    for i := 0 to |cs|
      invariant product.writes == old(product.writes) + WritesForAll(shadow, cs[..i])
      invariant Tells(product, from, total + evidence, notes)
    {
      WritesForNext(old(product.writes), shadow, cs, i);
      var attached := SubmitOne(product, shadow, cs[i], from, total + evidence, notes);
      evidence := evidence + attached;
    }
    assert cs[..|cs|] == cs;
  }

  method Dump(ds: seq<Draft>) returns (cs: seq<Candidate>)
    ensures cs == ValuesOf(ds)
  {
    cs := [];
    for i := 0 to |ds|
      invariant |cs| == i && forall k | 0 <= k < i :: cs[k] == ds[k].Value()
    {
      cs := cs + [ds[i].Value()];
    }
  }

  method Attach(product: Product, id: string, c: Candidate, ghost from: nat, ghost total: nat, notes: Notes)
    returns (evidence: nat)
    requires Tells(product, from, total, notes)
    modifies product, notes
    ensures product.writes == old(product.writes) + EvidenceCalls(id, c)
    ensures Tells(product, from, total + evidence, notes)
  {
    if c.evidence == [] { return 0; }
    var call := AttachEvidence(id, c.evidence);
    NotesOfNext(product.replies, from, product.writes, call);
    var ok := product.Call(call);
    if !ok {
      notes.Append(Failed(call));
      return 0;
    }
    evidence := |c.evidence|;
  }

  method Record(product: Product, call: Write, ghost from: nat, ghost total: nat, notes: Notes)
    requires call.RecordRun?
    requires Tells(product, from, total, notes)
    modifies product, notes
    ensures product.writes == old(product.writes) + [call]
    ensures Tells(product, from, total, notes)
  {
    NotesOfNext(product.replies, from, product.writes, call);
    var ok := product.Call(call);
    if !ok { notes.Append(Failed(call)); }
  }

  method RecordCandidateRun(product: Product, id: string, c: Candidate, ghost from: nat, ghost total: nat, notes: Notes)
    requires Tells(product, from, total, notes)
    modifies product, notes
    ensures product.writes == old(product.writes) + RunCalls(id, c)
    ensures Tells(product, from, total, notes)
  {
    if c.outcome.Some? { Record(product, RecordRun(id, c.outcome.value), from, total, notes); }
  }

  method RequestReviewOf(product: Product, shadow: bool, id: string, c: Candidate, ghost from: nat, ghost total: nat,
                         notes: Notes)
    requires Tells(product, from, total, notes)
    modifies product, notes
    ensures product.writes == old(product.writes) + ReviewCalls(shadow, id, c)
    ensures Tells(product, from, total, notes)
  {
    if shadow || c.outcome != Some(ReviewRequired) { return; }
    NotesOfNext(product.replies, from, product.writes, RequestReview(id));
    var ok := product.Call(RequestReview(id));
    if !ok {
      notes.Append(Failed(RequestReview(id)));
      return;
    }
    if product.replies.opensTask(id) { notes.Append(ReviewOpened(id)); }
  }

  /** Evidence first, then the run, then the review; one refusal does not keep the others from being tried. */
  method SubmitOne(product: Product, shadow: bool, c: Candidate, ghost from: nat, ghost total: nat, notes: Notes)
    returns (evidence: nat)
    requires Tells(product, from, total, notes)
    modifies product, notes
    ensures product.writes == old(product.writes) + WritesFor(shadow, c)
    ensures Tells(product, from, total + evidence, notes)
  {
    if !HasId(c.discoveryId) { return 0; }
    var id := c.discoveryId.value;
    evidence := Attach(product, id, c, from, total, notes);
    RecordCandidateRun(product, id, c, from, total + evidence, notes);
    RequestReviewOf(product, shadow, id, c, from, total + evidence, notes);
    Associative(old(product.writes), EvidenceCalls(id, c), RunCalls(id, c));
    Associative(old(product.writes), EvidenceCalls(id, c) + RunCalls(id, c), ReviewCalls(shadow, id, c));
  }

  /** Nothing fails silently and no failure is invented: the notes carry a failure line about a call exactly when a call
      like it was refused. */
  lemma {:induction false} FailureNotedIff(replies: Replies, from: nat, writes: seq<Write>, call: Write)
    ensures Failed(call) in NotesOf(replies, from, writes) <==>
            exists k | from <= k < |writes| :: writes[k] == call && replies.refused(k)
  {
    if from < |writes| {
      var k := |writes| - 1;
      var front := writes[..k];
      FailureNotedIff(replies, from, front, call);
      assert Failed(call) in NoteOf(replies, replies.refused(k), writes[k]) <==>
             writes[k] == call && replies.refused(k);
      forall i | from <= i < |writes| && writes[i] == call && replies.refused(i)
        ensures Failed(call) in NotesOf(replies, from, writes)
      {
        if i < k { assert front[i] == call; }
      }
    }
  }
}
