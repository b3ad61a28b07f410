/** From the split page to the product: ids that come back find their own candidate. */
module EndToEnd {
  import opened Wrappers
  import opened Candidates
  import opened Nodes
  import opened Graph
  import opened Resume
  import opened Submission

  // ---- What an echoed id can do ----

  ghost predicate Echoes(results: seq<ReplyItem>, title: string, id: string) {
    id != "" && exists k | 0 <= k < |results| :: results[k] == ReplyItem(title, id)
  }

  lemma {:induction false} IdForIs(results: seq<ReplyItem>, title: string)
    ensures IdFor(results, title).Some? ==> Echoes(results, title, IdFor(results, title).value)
    ensures IdFor(results, title).None? ==> forall id :: !Echoes(results, title, id)
  {
    if results != [] {
      var front, last := results[..|results| - 1], results[|results| - 1];
      IdForIs(front, title);
      assert results == front + [last];
      forall id
        ensures Echoes(results, title, id) <==> Echoes(front, title, id) || (id != "" && last == ReplyItem(title, id))
      {
        if Echoes(front, title, id) {
          var k :| 0 <= k < |front| && front[k] == ReplyItem(title, id);
          assert results[k] == front[k];
        }
        if Echoes(results, title, id) {
          var k :| 0 <= k < |results| && results[k] == ReplyItem(title, id);
          if k < |front| { assert front[k] == results[k]; }
        }
        if id != "" && last == ReplyItem(title, id) { assert results[|results| - 1] == last; }
      }
    }
  }

  /** A candidate that has an id keeps it and everything else; one that has none gets nothing but an id echoed for
      its own title, and gets one whenever there is one. */
  lemma OwnTitleOnly(c: Candidate, results: seq<ReplyItem>)
    ensures var d := Identified(c, results);
            && d == c.(discoveryId := d.discoveryId)
            && (!IsPending(c.title, c.discoveryId) ==> d == c)
            && (IsPending(c.title, c.discoveryId) ==>
                  if HasId(d.discoveryId) then Echoes(results, c.title, d.discoveryId.value)
                  else forall id :: !Echoes(results, c.title, id))
  {
    IdForIs(results, c.title);
  }

  /** The product never gives two titles one id. */
  ghost predicate OneTitlePerId(results: seq<ReplyItem>) {
    forall k, l | 0 <= k < |results| && 0 <= l < |results| && results[k].discoveryId == results[l].discoveryId != "" ::
      results[k].title == results[l].title
  }

  /** Two candidates that are given ids are given different ones exactly when their titles differ: the matching is
      only as good as the deduplication before it. */
  lemma IdsDifferIff(a: Candidate, b: Candidate, results: seq<ReplyItem>)
    requires OneTitlePerId(results) && IsPending(a.title, a.discoveryId) && IsPending(b.title, b.discoveryId)
    requires HasId(Identified(a, results).discoveryId) && HasId(Identified(b, results).discoveryId)
    ensures Identified(a, results).discoveryId != Identified(b, results).discoveryId <==> a.title != b.title
  {
    IdForIs(results, a.title);
    IdForIs(results, b.title);
  }

  /** Submitting again with the same reply changes no id. */
  lemma ResubmitIsStable(cs: seq<Candidate>, results: seq<ReplyItem>)
    ensures IdentifiedAll(IdentifiedAll(cs, results), results) == IdentifiedAll(cs, results)
  {
    var once := IdentifiedAll(cs, results);
    forall i | 0 <= i < |cs| ensures IdentifiedAll(once, results)[i] == once[i] {
      IdForIs(results, cs[i].title);
    }
  }

  // ---- The candidates of a finished run ----

  lemma StepsKeepTitle(w: World, c: Candidate, i: nat, text: Option<string>)
    ensures FetchOne(w, c).title == c.title && EligibilityOne(w, c, i).title == c.title && DecideOne(c).title == c.title
    ensures CompareOne(w, c, i, text).title == c.title
  {
  }

  lemma FinalTitle(w: World, lost: set<nat>, i: nat)
    requires i < |Found(w)|
    ensures DecideOne(JudgedWith(w, lost, i)).title == Found(w)[i].title
  {
    var text := PageText(w, Found(w)[i]);
    var fetched := Fetched(w)[i];
    StepsKeepTitle(w, Found(w)[i], i, text);
    StepsKeepTitle(w, fetched, i, text);
    StepsKeepTitle(w, Partly(w, lost)[i], i, text);
    StepsKeepTitle(w, JudgedWith(w, lost, i), i, text);
  }

  lemma ShortRunsHaveNone(w: World)
    requires !Examined(w)
    ensures At(w, End).candidates == []
  {
    AtFacts(w, Before(w, Decide), {});
    AtStep(w, Decide, {});
    FactsStep(w, Decide, At(w, Before(w, Decide)), {});
    AtFacts(w, Decide, {});
    AtEnd(w, {});
  }

  /** No finished run, interrupted or not, holds two candidates with one title. */
  lemma TitlesStayDistinct(w: World, es: seq<Event>)
    requires ValidRun(w, es) && Run(w, es).node == End
    ensures var cs := Run(w, es).st.candidates;
            forall i, j | 0 <= i < j < |cs| :: cs[i].title != cs[j].title
  {
    RunKeepsInv(w, es);
    var x := Run(w, es);
    if !Examined(w) {
      ShortRunsHaveNone(w);
    } else {
      FinalWith(w, x.lost);
      FoundFacts(w);
      forall i | 0 <= i < |Found(w)| ensures x.st.candidates[i].title == Found(w)[i].title {
        FinalTitle(w, x.lost, i);
      }
    }
  }

  /** End to end: when a finished run is submitted, no two of its candidates are ever given the same id. */
  lemma IdsNeverCross(w: World, es: seq<Event>, results: seq<ReplyItem>)
    requires ValidRun(w, es) && Run(w, es).node == End && OneTitlePerId(results)
    ensures var cs := Run(w, es).st.candidates;
            var out := IdentifiedAll(cs, results);
            forall i, j | && 0 <= i < j < |cs| && IsPending(cs[i].title, cs[i].discoveryId)
                          && IsPending(cs[j].title, cs[j].discoveryId)
                          && HasId(out[i].discoveryId) && HasId(out[j].discoveryId) ::
              out[i].discoveryId != out[j].discoveryId
  {
    TitlesStayDistinct(w, es);
    var cs := Run(w, es).st.candidates;
    forall i, j | && 0 <= i < j < |cs| && IsPending(cs[i].title, cs[i].discoveryId)
                  && IsPending(cs[j].title, cs[j].discoveryId)
                  && HasId(Identified(cs[i], results).discoveryId) && HasId(Identified(cs[j], results).discoveryId)
      ensures Identified(cs[i], results).discoveryId != Identified(cs[j], results).discoveryId
    {
      IdsDifferIff(cs[i], cs[j], results);
    }
  }
}
