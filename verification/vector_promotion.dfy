/** Promotion of reviews to edges by unique vector matches. */
module VectorPromotion {
  import opened EdgeRecords
  import opened NameIndex
  import opened Options
  import opened PartyResolution

  /** What the vector matcher answers. `score` and `confidence` (the score rounded) are in millionths;
      `evidence` and `note` are the texts it contributes to the edge and to the review. */
  datatype Decision = Decision(matched: bool, selected: string, score: int, confidence: int,
                               candidates: seq<Candidate>, evidence: string, note: string)

  /** The matcher, from a party name and the id of the record that asks; `None` when it raises. */
  type Matcher = (string, string) -> Option<Decision>

  const NO_DECISION := Decision(false, "", 0, 0, [], "", "")

  function Answer(align: Matcher, r: Review): Decision {
    match align(r.name, r.recordId)
    case Some(d) => d
    case None => NO_DECISION
  }

  const GUARD := "entity_type_guard=Person"

  /** What a review record holds: the record proper and its evidence texts. */
  datatype Entry = Entry(review: Review, evidence: seq<string>)

  /** A review record; the promotion updates it in place. */
  class ReviewRecord {
    var review: Review
    var evidence: seq<string>

    constructor (review: Review, evidence: seq<string>)
      ensures Value() == Entry(review, evidence)
    {
      this.review := review;
      this.evidence := evidence;
    }

    function Value(): Entry
      reads this
    {
      Entry(review, evidence)
    }
  }

  predicate OnlyPersonCandidates(r: Review) {
    r.candidates != [] && forall c | c in r.candidates :: c.isPerson
  }

  predicate IsParty(r: Review) { r.relation == "APPLIED_BY" || r.relation == "OWNED_BY" }

  predicate Eligible(r: Review) { IsParty(r) && !OnlyPersonCandidates(r) }

  function Snapshot(reviews: seq<ReviewRecord>): seq<Entry>
    reads reviews
  {
    seq(|reviews|, i requires 0 <= i < |reviews| reads reviews => reviews[i].Value())
  }

  // ---------------------------------------------------------------------------
  // Specification, over the entries as they were on entry
  // ---------------------------------------------------------------------------

  /** The first eligible entry with this normalized name; the number of entries if there is none. */
  function FirstEligible(n: Names, entries: seq<Entry>, key: string): (i: nat)
    ensures i <= |entries|
    ensures i < |entries| ==> Eligible(entries[i].review) && n.normalize(entries[i].review.name) == key
    ensures forall j | 0 <= j < i :: !(Eligible(entries[j].review) && n.normalize(entries[j].review.name) == key)
  {
    if entries == [] || (Eligible(entries[0].review) && n.normalize(entries[0].review.name) == key) then 0
    else 1 + FirstEligible(n, entries[1..], key)
  }

  /** The entry that asks the matcher for the entries of this normalized name: the first of them. */
  function Asker(n: Names, entries: seq<Entry>, i: nat): Review
    requires i < |entries| && Eligible(entries[i].review)
  {
    entries[FirstEligible(n, entries, n.normalize(entries[i].review.name))].review
  }

  /** The matcher does not raise for the name of this entry. */
  predicate Answered(n: Names, align: Matcher, entries: seq<Entry>, i: nat)
    requires i < |entries| && Eligible(entries[i].review)
  {
    align(Asker(n, entries, i).name, Asker(n, entries, i).recordId).Some?
  }

  function DecisionFor(n: Names, align: Matcher, entries: seq<Entry>, i: nat): Decision
    requires i < |entries| && Eligible(entries[i].review)
  {
    Answer(align, Asker(n, entries, i))
  }

  predicate IsPromoted(n: Names, align: Matcher, entries: seq<Entry>, i: nat)
    requires i < |entries|
  {
    && Eligible(entries[i].review)
    && DecisionFor(n, align, entries, i).matched && DecisionFor(n, align, entries, i).selected != ""
  }

  function EdgeOf(r: Review, d: Decision): EdgeRecord {
    EdgeRecord(r.relation, r.patentVid, d.selected, r.sequence,
               PartyProperties(r.sequence, r.role, r.isCurrent, r.name, d.confidence,
                               "milvus_bm25_dense_hybrid", d.evidence, r.recordId))
  }

  /** The edges of the promoted entries among the first `m`, in order. */
  function Promoted(n: Names, align: Matcher, entries: seq<Entry>, m: nat): seq<EdgeRecord>
    requires m <= |entries|
  {
    if m == 0 then []
    else
      Promoted(n, align, entries, m - 1)
      + if IsPromoted(n, align, entries, m - 1)
        then [EdgeOf(entries[m - 1].review, DecisionFor(n, align, entries, m - 1))] else []
  }

  /** The items that belong to the other entries among the first `m`, in order. */
  function Remaining<T>(n: Names, align: Matcher, entries: seq<Entry>, items: seq<T>, m: nat): seq<T>
    requires m <= |entries| == |items|
  {
    if m == 0 then []
    else
      Remaining(n, align, entries, items, m - 1)
      + if IsPromoted(n, align, entries, m - 1) then [] else [items[m - 1]]
  }

  /** An entry after the check: one with only person candidates is marked. */
  function Checked(e: Entry): Entry {
    if IsParty(e.review) && OnlyPersonCandidates(e.review)
    then Entry(e.review.(reason := OnlyPeople), if GUARD in e.evidence then e.evidence else e.evidence + [GUARD])
    else e
  }

  /** What becomes of a review the matcher's decision does not promote. */
  function Rejected(r: Review, d: Decision): Review {
    r.(reason := VectorRejected, candidates := d.candidates, confidence := if d.score == 0 then None else Some(d.score))
  }

  /** Entry `i` after the promotion. */
  function After(n: Names, align: Matcher, entries: seq<Entry>, i: nat): Entry
    requires i < |entries|
  {
    var e := entries[i];
    if !Eligible(e.review) then Checked(e)
    else
      var d := DecisionFor(n, align, entries, i);
      Entry(if IsPromoted(n, align, entries, i) then e.review.(candidates := d.candidates) else Rejected(e.review, d),
            e.evidence + [d.note])
  }

  // ---------------------------------------------------------------------------
  // The promotion
  // ---------------------------------------------------------------------------

  /** Whether a record may be matched by vector; one with only person candidates is marked instead. */
  method CheckEligible(item: ReviewRecord) returns (eligible: bool)
    modifies item
    ensures eligible == Eligible(old(item.review))
    ensures item.Value() == Checked(old(item.Value()))
  {
    if !IsParty(item.review) {
      return false;
    }
    if OnlyPersonCandidates(item.review) {
      item.review := item.review.(reason := OnlyPeople);
      if GUARD !in item.evidence {
        item.evidence := item.evidence + [GUARD];
      }
      return false;
    }
    return true;
  }

  ghost predicate Distinct(reviews: seq<ReviewRecord>) {
    forall i, j | 0 <= i < j < |reviews| :: reviews[i] != reviews[j]
  }

  /** The short-circuiting scan for an eligible record: the `first` one, with those before it checked. */
  method AnyEligible(reviews: seq<ReviewRecord>) returns (found: bool, ghost first: nat)
    requires Distinct(reviews)
    modifies reviews
    ensures first <= |reviews| && (found <==> first < |reviews|) && (found ==> Eligible(old(reviews[first].review)))
    ensures forall i | 0 <= i < first :: !Eligible(old(reviews[i].review))
    ensures forall i | 0 <= i < first :: reviews[i].Value() == Checked(old(reviews[i].Value()))
    ensures forall i | first <= i < |reviews| :: reviews[i].Value() == old(reviews[i].Value())
  {
    hide Checked;
    for i := 0 to |reviews|
      invariant forall j | 0 <= j < i :: !Eligible(old(reviews[j].review))
      invariant forall j | 0 <= j < i :: reviews[j].Value() == Checked(old(reviews[j].Value()))
      invariant forall j | i <= j < |reviews| :: reviews[j].Value() == old(reviews[j].Value())
    {
      var eligible := CheckEligible(reviews[i]);
      if eligible {
        CheckedTwice(old(reviews[i].Value()));
        return true, i;
      }
    }
    return false, |reviews|;
  }

  /** The decision cache: one answer per normalized name already asked for. */
  ghost predicate CacheHolds(n: Names, align: Matcher, entries: seq<Entry>, m: nat, cache: map<string, Decision>)
    requires m <= |entries|
  {
    && (forall key :: key in cache <==> FirstEligible(n, entries, key) < m)
    && forall key | key in cache ::
         var first := entries[FirstEligible(n, entries, key)].review;
         align(first.name, first.recordId) == Some(cache[key])
  }

  lemma IneligibleKeepsCache(n: Names, align: Matcher, entries: seq<Entry>, i: nat, cache: map<string, Decision>)
    requires i < |entries| && !Eligible(entries[i].review) && CacheHolds(n, align, entries, i, cache)
    ensures CacheHolds(n, align, entries, i + 1, cache)
  {
    forall key
      ensures FirstEligible(n, entries, key) != i
    {
    }
  }

  /** The keys first asked for up to entry `i`: those before it, and its own. */
  lemma FirstUpTo(n: Names, entries: seq<Entry>, i: nat, key: string)
    requires i < |entries| && Eligible(entries[i].review)
    ensures FirstEligible(n, entries, key) < i + 1 <==>
              FirstEligible(n, entries, key) < i || key == n.normalize(entries[i].review.name)
  {
    hide Eligible;
  }

  lemma KnownKeyKeepsCache(n: Names, align: Matcher, entries: seq<Entry>, i: nat, cache: map<string, Decision>)
    requires i < |entries| && Eligible(entries[i].review) && CacheHolds(n, align, entries, i, cache)
    requires n.normalize(entries[i].review.name) in cache
    ensures CacheHolds(n, align, entries, i + 1, cache)
  {
    hide Eligible, FirstEligible;
    forall key
      ensures key in cache <==> FirstEligible(n, entries, key) < i + 1
    {
      FirstUpTo(n, entries, i, key);
    }
  }

  lemma NewKeyExtendsCache(n: Names, align: Matcher, entries: seq<Entry>, i: nat, cache: map<string, Decision>)
    requires i < |entries| && Eligible(entries[i].review) && CacheHolds(n, align, entries, i, cache)
    requires n.normalize(entries[i].review.name) !in cache
    ensures Asker(n, entries, i) == entries[i].review
    ensures var item := entries[i].review;
            Answered(n, align, entries, i) ==>
              CacheHolds(n, align, entries, i + 1, cache[n.normalize(item.name) := Answer(align, item)])
  {
    hide Eligible, FirstEligible;
    var item := entries[i].review;
    var now := cache[n.normalize(item.name) := Answer(align, item)];
    forall key
      ensures key in now <==> FirstEligible(n, entries, key) < i + 1
    {
      FirstUpTo(n, entries, i, key);
    }
    assert FirstEligible(n, entries, n.normalize(item.name)) == i;
  }

  lemma CachedDecision(n: Names, align: Matcher, entries: seq<Entry>, i: nat, cache: map<string, Decision>)
    requires i < |entries| && Eligible(entries[i].review) && CacheHolds(n, align, entries, i + 1, cache)
    ensures var key := n.normalize(entries[i].review.name);
            key in cache && Answered(n, align, entries, i) && cache[key] == DecisionFor(n, align, entries, i)
  {
    hide Eligible, FirstEligible;
    FirstUpTo(n, entries, i, n.normalize(entries[i].review.name));
  }

  /** The decision of an eligible record, from the cache or else from the matcher, which may raise. */
  method Ask(n: Names, align: Matcher, ghost entries: seq<Entry>, ghost i: nat, item: Review, cache: map<string, Decision>)
    returns (ok: bool, decision: Decision, cache': map<string, Decision>)
    requires i < |entries| && Eligible(entries[i].review) && item == entries[i].review
    requires CacheHolds(n, align, entries, i, cache)
    ensures ok <==> Answered(n, align, entries, i)
    ensures ok ==> CacheHolds(n, align, entries, i + 1, cache') && decision == DecisionFor(n, align, entries, i)
  {
    hide CacheHolds, DecisionFor, Eligible, Asker, Answer;
    cache' := cache;
    var key := n.normalize(item.name);
    if key !in cache {
      NewKeyExtendsCache(n, align, entries, i, cache);
      if align(item.name, item.recordId).None? {
        return false, NO_DECISION, cache;
      }
      cache' := cache[key := Answer(align, item)];
    } else {
      KnownKeyKeepsCache(n, align, entries, i, cache);
    }
    CachedDecision(n, align, entries, i, cache');
    ok, decision := true, cache'[key];
  }

  lemma CheckedTwice(e: Entry)
    ensures Checked(Checked(e)) == Checked(e) && Eligible(Checked(e).review) == Eligible(e.review)
    ensures Eligible(e.review) ==> Checked(e) == e
  {
  }

  /** The matcher raises at this entry. */
  predicate Raises(n: Names, align: Matcher, entries: seq<Entry>, i: nat)
    requires i < |entries|
  {
    Eligible(entries[i].review) && !Answered(n, align, entries, i)
  }

  /** The loop body: one record is checked, decided, and marked or turned into an edge. */
  method PromoteOne(n: Names, align: Matcher, ghost entries: seq<Entry>, ghost i: nat, item: ReviewRecord,
                    cache: map<string, Decision>)
    returns (ok: bool, edge: Option<EdgeRecord>, cache': map<string, Decision>)
    requires i < |entries| && item.Value() in {entries[i], Checked(entries[i])}
    requires CacheHolds(n, align, entries, i, cache)
    modifies item
    ensures ok <==> !Raises(n, align, entries, i)
    ensures !ok ==> item.Value() == entries[i]
    ensures ok ==> CacheHolds(n, align, entries, i + 1, cache')
    ensures ok ==> edge == if IsPromoted(n, align, entries, i)
                           then Some(EdgeOf(entries[i].review, DecisionFor(n, align, entries, i))) else None
    ensures ok ==> item.Value() == After(n, align, entries, i)
  {
    hide CacheHolds, DecisionFor, EdgeOf, Checked, Eligible, Answered;
    CheckedTwice(entries[i]);
    var eligible := CheckEligible(item);
    if !eligible {
      IneligibleKeepsCache(n, align, entries, i, cache);
      return true, None, cache;
    }
    var before := item.review;
    var decision;
    ok, decision, cache' := Ask(n, align, entries, i, before, cache);
    edge := None;
    if !ok {
      return;
    }
    item.evidence := item.evidence + [decision.note];
    if !decision.matched || decision.selected == "" {
      item.review := Rejected(before, decision);
      return;
    }
    item.review := before.(candidates := decision.candidates);
    edge := Some(EdgeOf(before, decision));
  }

  /** How a promotion that raises leaves the records: the first `m` as if promoted, or only checked if the
      index cannot be used, and the others as they were. */
  ghost predicate StopsAt(n: Names, align: Matcher, indexPresent: bool, entries: seq<Entry>, reviews: seq<ReviewRecord>, m: nat)
    reads reviews
  {
    && m < |entries| == |reviews| && Eligible(entries[m].review)
    && (forall j | m <= j < |entries| :: reviews[j].Value() == entries[j])
    && (forall j | 0 <= j < m :: if indexPresent then !Raises(n, align, entries, j) else !Eligible(entries[j].review))
    && (forall j | 0 <= j < m :: reviews[j].Value() == if indexPresent then After(n, align, entries, j) else Checked(entries[j]))
    && (indexPresent ==> Raises(n, align, entries, m))
  }

  /** Splits the reviews, in order and without loss, into promoted edges and remaining records.
      `indexPresent`: the collection is there and its BM25 state can be loaded. */
  method Promote(n: Names, align: Matcher, indexPresent: bool, reviews: seq<ReviewRecord>)
    returns (ok: bool, promoted: seq<EdgeRecord>, remaining: seq<ReviewRecord>, ghost m: nat)
    requires Distinct(reviews)
    modifies reviews
    ensures ok <==> forall i | 0 <= i < |reviews| ::
              (Eligible(old(reviews[i].review)) ==> indexPresent) && !Raises(n, align, old(Snapshot(reviews)), i)
    ensures ok ==>
              && promoted == Promoted(n, align, old(Snapshot(reviews)), |reviews|)
              && remaining == Remaining(n, align, old(Snapshot(reviews)), reviews, |reviews|)
              && forall i | 0 <= i < |reviews| :: reviews[i].Value() == After(n, align, old(Snapshot(reviews)), i)
    ensures !ok ==> StopsAt(n, align, indexPresent, old(Snapshot(reviews)), reviews, m)
  {
    hide IsPromoted, DecisionFor, CacheHolds, EdgeOf, Checked, Eligible, After, Answered, OnlyPersonCandidates;
    ghost var entries := Snapshot(reviews);
    ok, promoted, remaining := true, [], [];
    var any: bool;
    any, m := AnyEligible(reviews);
    if !any {
      NothingPromoted(n, align, entries, reviews, |reviews|);
      remaining := reviews;
      assert reviews[..|reviews|] == reviews;
      return;
    }
    assert Eligible(entries[m].review);
    if !indexPresent {
      ok := false;
      return;
    }
    ok, promoted, remaining, m := PromoteAll(n, align, reviews, entries, m);
  }

  /** The loop over all records; those before the `first` eligible one have been checked already. */
  method PromoteAll(n: Names, align: Matcher, reviews: seq<ReviewRecord>, ghost entries: seq<Entry>, ghost first: nat)
    returns (ok: bool, promoted: seq<EdgeRecord>, remaining: seq<ReviewRecord>, ghost m: nat)
    requires Distinct(reviews) && |entries| == |reviews|
    requires first < |entries| && forall j | 0 <= j < first :: !Eligible(entries[j].review)
    requires forall j | 0 <= j < first :: reviews[j].Value() == Checked(entries[j])
    requires forall j | first <= j < |reviews| :: reviews[j].Value() == entries[j]
    modifies reviews
    ensures ok <==> forall j | 0 <= j < |entries| :: !Raises(n, align, entries, j)
    ensures ok ==>
              && promoted == Promoted(n, align, entries, |entries|)
              && remaining == Remaining(n, align, entries, reviews, |entries|)
              && forall j | 0 <= j < |reviews| :: reviews[j].Value() == After(n, align, entries, j)
    ensures !ok ==> StopsAt(n, align, true, entries, reviews, m)
  {
    hide IsPromoted, DecisionFor, CacheHolds, EdgeOf, Checked, Eligible, After, Answered;
    ok, promoted, remaining, m := true, [], [], 0;
    var cache: map<string, Decision> := map[];
    EmptyCache(n, align, entries);
    for i := 0 to |reviews|
      invariant CacheHolds(n, align, entries, i, cache)
      invariant promoted == Promoted(n, align, entries, i)
      invariant remaining == Remaining(n, align, entries, reviews, i)
      invariant forall j | i <= j < |reviews| :: reviews[j].Value() == if j < first then Checked(entries[j]) else entries[j]
      invariant forall j | 0 <= j < i :: reviews[j].Value() == After(n, align, entries, j) && !Raises(n, align, entries, j)
    {
      var edge;
      ok, edge, cache := PromoteOne(n, align, entries, i, reviews[i], cache);
      if !ok {
        m := i;
        return;
      }
      if edge.Some? {
        promoted := promoted + [edge.value];
      } else {
        remaining := remaining + [reviews[i]];
      }
    }
  }

  lemma EmptyCache(n: Names, align: Matcher, entries: seq<Entry>)
    ensures CacheHolds(n, align, entries, 0, map[])
  {
  }

  lemma {:induction false} NothingPromoted<T>(n: Names, align: Matcher, entries: seq<Entry>, items: seq<T>, m: nat)
    requires m <= |entries| == |items| && forall i | 0 <= i < m :: !Eligible(entries[i].review)
    ensures Promoted(n, align, entries, m) == []
    ensures Remaining(n, align, entries, items, m) == items[..m]
    ensures forall i | 0 <= i < m :: After(n, align, entries, i) == Checked(entries[i])
  {
    if m > 0 {
      NothingPromoted(n, align, entries, items, m - 1);
    }
  }

  /** None is lost: the first `m` reviews split into edges and remaining records. */
  lemma {:induction false} PromotionAccounting<T>(n: Names, align: Matcher, entries: seq<Entry>, items: seq<T>, m: nat)
    requires m <= |entries| == |items|
    ensures |Promoted(n, align, entries, m)| + |Remaining(n, align, entries, items, m)| == m
  {
    if m > 0 {
      PromotionAccounting(n, align, entries, items, m - 1);
    }
  }

  /** Each entry stands in its list right after those of the entries before it. */
  lemma {:induction false} PromotionOrder<T>(n: Names, align: Matcher, entries: seq<Entry>, items: seq<T>, m: nat, i: nat)
    requires i < m <= |entries| == |items|
    ensures var edges, left := Promoted(n, align, entries, m), Remaining(n, align, entries, items, m);
            var e, l := |Promoted(n, align, entries, i)|, |Remaining(n, align, entries, items, i)|;
            if IsPromoted(n, align, entries, i)
            then e < |edges| && edges[e] == EdgeOf(entries[i].review, DecisionFor(n, align, entries, i))
            else l < |left| && left[l] == items[i]
  {
    hide IsPromoted, DecisionFor, EdgeOf;
    if i < m - 1 {
      PromotionOrder(n, align, entries, items, m - 1, i);
    }
  }

  // ---------------------------------------------------------------------------
  // What becomes of a review, in terms of the matcher's answer
  // ---------------------------------------------------------------------------

  /** A review is eligible iff it is of an applicant or assignee and its candidates, if it has any, are not
      all people. */
  lemma EligibleIff(r: Review)
    ensures Eligible(r) <==>
              r.relation in {"APPLIED_BY", "OWNED_BY"} && (r.candidates == [] || exists c | c in r.candidates :: !c.isPerson)
  {
  }

  /** Entry `f` is the first eligible one whose name normalises like that of entry `i`. */
  ghost predicate AsksFor(n: Names, entries: seq<Entry>, i: nat, f: nat)
    requires i < |entries|
  {
    && f <= i && Eligible(entries[f].review) && SameName(n, entries, f, i)
    && forall j | 0 <= j < f :: !(Eligible(entries[j].review) && SameName(n, entries, j, i))
  }

  ghost predicate SameName(n: Names, entries: seq<Entry>, j: nat, i: nat)
    requires i < |entries| && j < |entries|
  {
    n.normalize(entries[j].review.name) == n.normalize(entries[i].review.name)
  }

  lemma AskerIs(n: Names, entries: seq<Entry>, i: nat, f: nat)
    requires i < |entries| && Eligible(entries[i].review) && AsksFor(n, entries, i, f)
    ensures FirstEligible(n, entries, n.normalize(entries[i].review.name)) == f && Asker(n, entries, i) == entries[f].review
  {
    hide Eligible;
    var key := n.normalize(entries[i].review.name);
    var g := FirstEligible(n, entries, key);
    assert g < |entries| ==> SameName(n, entries, g, i);
    assert n.normalize(entries[f].review.name) == key;
  }

  /** Everything an edge says of a promoted review: its endpoints, rank, confidence and provenance. */
  ghost predicate TellsPromotion(e: EdgeRecord, r: Review, d: Decision) {
    && e.edgeType == r.relation && e.source == r.patentVid && e.target == d.selected && e.rank == r.sequence
    && ("sequence", Int(r.sequence)) in e.properties && ("role", Str(r.role)) in e.properties
    && ("source_name", Str(r.name)) in e.properties && ("confidence", Float(d.confidence)) in e.properties
    && ("subject_type", Str("Organization")) in e.properties
    && ("match_method", Str("milvus_bm25_dense_hybrid")) in e.properties && ("match_evidence", Str(d.evidence)) in e.properties
    && ("source_record_id", Str(r.recordId)) in e.properties
    && CurrentIs(e.properties, r.isCurrent) && ("resolution_status", Str("automatic")) in e.properties
  }

  lemma EdgeTells(r: Review, d: Decision)
    ensures TellsPromotion(EdgeOf(r, d), r, d)
  {
    hide PartyProperties;
    PropertiesHave(r.sequence, r.role, r.isCurrent, r.name, d.confidence, "milvus_bm25_dense_hybrid", d.evidence, r.recordId);
  }

  /** An eligible review is promoted iff the matcher, asked for the first eligible review of its name, says
      that it matched and selects a vertex. Its edge then leads from its patent to that vertex. */
  lemma PromotedTells(n: Names, align: Matcher, entries: seq<Entry>, m: nat, i: nat, f: nat)
    requires i < m <= |entries| && Eligible(entries[i].review) && AsksFor(n, entries, i, f)
    ensures var answer := align(entries[f].review.name, entries[f].review.recordId);
            var edges, e := Promoted(n, align, entries, m), |Promoted(n, align, entries, i)|;
            if answer.Some? && answer.value.matched && answer.value.selected != ""
            then e < |edges| && TellsPromotion(edges[e], entries[i].review, answer.value)
                 && Promoted(n, align, entries, i + 1) == Promoted(n, align, entries, i) + [edges[e]]
            else Promoted(n, align, entries, i + 1) == Promoted(n, align, entries, i)
  {
    hide Eligible, EdgeOf, TellsPromotion, FirstEligible, Promoted;
    AskerIs(n, entries, i, f);
    PromotionOrder(n, align, entries, entries, m, i);
    PromotedNext(n, align, entries, i);
    EdgeTells(entries[i].review, DecisionFor(n, align, entries, i));
  }

  lemma PromotedNext(n: Names, align: Matcher, entries: seq<Entry>, i: nat)
    requires i < |entries|
    ensures Promoted(n, align, entries, i + 1) == Promoted(n, align, entries, i) +
              if IsPromoted(n, align, entries, i) then [EdgeOf(entries[i].review, DecisionFor(n, align, entries, i))] else []
  {
  }

  /** No other review is promoted. */
  lemma IneligibleStays(n: Names, align: Matcher, entries: seq<Entry>, i: nat)
    requires i < |entries| && !Eligible(entries[i].review)
    ensures Promoted(n, align, entries, i + 1) == Promoted(n, align, entries, i)
    ensures var e, before := After(n, align, entries, i), entries[i];
            if before.review.relation in {"APPLIED_BY", "OWNED_BY"}
            then e.review == before.review.(reason := OnlyPeople) &&
                 e.evidence == before.evidence + (if "entity_type_guard=Person" in before.evidence then [] else ["entity_type_guard=Person"])
            else e == before
  {
    PromotedNext(n, align, entries, i);
  }

  /** The new state of an eligible review: the matcher's candidates and note, and, unless it is promoted, the
      reason and the score. */
  lemma EligibleAfter(n: Names, align: Matcher, entries: seq<Entry>, i: nat, f: nat, d: Decision)
    requires i < |entries| && Eligible(entries[i].review) && AsksFor(n, entries, i, f)
    requires align(entries[f].review.name, entries[f].review.recordId) == Some(d)
    ensures var e, r := After(n, align, entries, i), entries[i].review;
            && e.evidence == entries[i].evidence + [d.note] && e.review.candidates == d.candidates
            && (if d.matched && d.selected != "" then e.review == r.(candidates := d.candidates)
                else e.review.reason == VectorRejected && e.review.confidence == (if d.score == 0 then None else Some(d.score))
                     && e.review.(reason := r.reason, confidence := r.confidence, candidates := r.candidates) == r)
  {
    hide Eligible, FirstEligible;
    AskerIs(n, entries, i, f);
  }
}
