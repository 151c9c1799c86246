/**
 * The review table and the repository operations the review service relies
 * on: the two derived queries declared on `ReviewRepository` and the
 * `save` / `delete` it inherits from the JPA repository.
 */
module ReviewRepository {
  import opened Wrappers
  import opened Domain

  /** The review table, keyed by reviewId. */
  type ReviewTable = map<Id, Review>

  /** Every review row is stored under its own reviewId. */
  predicate WellKeyed(t: ReviewTable) {
    forall k :: k in t ==> t[k].reviewId == Some(k)
  }

  /**
   * `findByCompany_CompanyId`: the stored reviews whose company's id is
   * `companyId`. The list's order is unspecified, so it is a set here.
   */
  function FindByCompanyId(t: ReviewTable, companyId: Id): (rs: set<Review>)
    // only reviews of that company, and only stored ones
    ensures forall r :: r in rs ==> r.CompanyId() == Some(companyId) && exists k :: k in t && t[k] == r
    // every stored review of that company
    ensures forall k :: k in t && t[k].CompanyId() == Some(companyId) ==> t[k] in rs
    // empty exactly when the company has no review
    ensures rs == {} <==> forall k :: k in t ==> t[k].CompanyId() != Some(companyId)
  {
    set k | k in t && t[k].CompanyId() == Some(companyId) :: t[k]
  }

  /**
   * `findByCompanyId_CompanyIdAndReviewId`: the review whose reviewId is
   * `reviewId` AND whose company's id is `companyId`, if there is one.
   */
  function FindByCompanyIdAndReviewId(t: ReviewTable, companyId: Id, reviewId: Id): (found: Option<Review>)
    requires WellKeyed(t)
    ensures found.Some? ==> reviewId in t && t[reviewId] == found.value
    ensures found.Some? ==> found.value.reviewId == Some(reviewId) && found.value.CompanyId() == Some(companyId)
    // empty whenever no stored row matches both ids: review absent, or another company's
    ensures found.None? <==>
      forall k :: k in t ==> !(t[k].reviewId == Some(reviewId) && t[k].CompanyId() == Some(companyId))
  {
    if reviewId in t && t[reviewId].CompanyId() == Some(companyId) then Some(t[reviewId]) else None
  }

  /** The key `save` stores a review under: its own id, or the id the storage generates. */
  function SaveKey(r: Review, generatedId: Id): Id {
    r.reviewId.GetOr(generatedId)
  }

  /**
   * `save`: an upsert keyed by the review's id. A review without an id gets
   * the fresh `generatedId` assigned by the storage.
   */
  function Save(t: ReviewTable, r: Review, generatedId: Id): (t': ReviewTable)
    requires r.reviewId.None? ==> generatedId !in t
    ensures t'.Keys == t.Keys + {SaveKey(r, generatedId)}
    ensures t'[SaveKey(r, generatedId)] == r.(reviewId := Some(SaveKey(r, generatedId)))
    ensures forall k :: k in t && k != SaveKey(r, generatedId) ==> t'[k] == t[k]
    ensures r.reviewId.None? ==> |t'| == |t| + 1
    ensures WellKeyed(t) ==> WellKeyed(t')
  {
    var key := SaveKey(r, generatedId);
    t[key := r.(reviewId := Some(key))]
  }

  /** `delete(entity)`: removes the row with the entity's id; an entity without an id is ignored. */
  function Delete(t: ReviewTable, r: Review): (t': ReviewTable)
    ensures r.reviewId.Some? ==> t'.Keys == t.Keys - {r.reviewId.value}
    ensures r.reviewId.None? ==> t' == t
    ensures forall k :: k in t' ==> k in t && t'[k] == t[k]
    ensures WellKeyed(t) ==> WellKeyed(t')
  {
    if r.reviewId.Some? then t - {r.reviewId.value} else t
  }

  /**
   * The scoped lookup and the company listing agree: the lookup finds `x`
   * exactly when `x` is listed for the company and carries the reviewId.
   */
  lemma {:induction false} ScopedLookupAgreesWithListing(t: ReviewTable, companyId: Id, reviewId: Id, x: Review)
    requires WellKeyed(t)
    ensures FindByCompanyIdAndReviewId(t, companyId, reviewId) == Some(x) <==>
            x in FindByCompanyId(t, companyId) && x.reviewId == Some(reviewId)
  {
    if x in FindByCompanyId(t, companyId) && x.reviewId == Some(reviewId) {
      var k :| k in t && t[k] == x;
      assert k == reviewId;
    }
  }

  /**
   * Writing a row that belongs to neither the old nor the new owner `d`
   * leaves company `d`'s listing as it was.
   */
  lemma {:induction false} PutKeepsOtherCompanies(t: ReviewTable, key: Id, v: Review, d: Id)
    requires key in t ==> t[key].CompanyId() != Some(d)
    requires v.CompanyId() != Some(d)
    ensures FindByCompanyId(t[key := v], d) == FindByCompanyId(t, d)
  {
    var t' := t[key := v];
    forall x | x in FindByCompanyId(t, d)
      ensures x in FindByCompanyId(t', d)
    {
      var j :| j in t && t[j] == x;
      assert j != key && t'[j] == x;
    }
    forall x | x in FindByCompanyId(t', d)
      ensures x in FindByCompanyId(t, d)
    {
      var j :| j in t' && t'[j] == x;
      assert j != key && t[j] == x;
    }
  }

  /** Removing a row that is not company `d`'s leaves company `d`'s listing as it was. */
  lemma {:induction false} RemoveKeepsOtherCompanies(t: ReviewTable, key: Id, d: Id)
    requires key in t ==> t[key].CompanyId() != Some(d)
    ensures FindByCompanyId(t - {key}, d) == FindByCompanyId(t, d)
  {
    var t' := t - {key};
    forall x | x in FindByCompanyId(t, d)
      ensures x in FindByCompanyId(t', d)
    {
      var j :| j in t && t[j] == x;
      assert j != key && t'[j] == x;
    }
  }

  /**
   * Removing a row takes exactly that review out of its company's listing:
   * ids are unique, so no other row carries the same review.
   */
  lemma {:induction false} RemoveDropsOnlyTarget(t: ReviewTable, key: Id, c: Id)
    requires WellKeyed(t) && key in t
    ensures FindByCompanyId(t - {key}, c) == FindByCompanyId(t, c) - {t[key]}
  {
    var t' := t - {key};
    forall x | x in FindByCompanyId(t, c) && x != t[key]
      ensures x in FindByCompanyId(t', c)
    {
      var j :| j in t && t[j] == x;
      assert j != key && t'[j] == x;
    }
    forall x | x in FindByCompanyId(t', c)
      ensures x in FindByCompanyId(t, c) && x != t[key]
    {
      var j :| j in t' && t'[j] == x;
      assert t[j] == x && x.reviewId == Some(j) && j != key;
    }
  }

  /**
   * Saving a review whose body carries the id of ANOTHER company's review
   * overwrites that row: the review leaves its old company's listing and
   * shows up in the new company's. Path scoping does not guard `save`.
   */
  lemma {:induction false} SaveWithForeignIdRehomes(t: ReviewTable, r: Review, generatedId: Id, oldOwner: Id)
    requires WellKeyed(t)
    requires r.reviewId.Some? && r.reviewId.value in t
    requires t[r.reviewId.value].CompanyId() == Some(oldOwner)
    requires r.CompanyId().Some? && r.CompanyId() != Some(oldOwner)
    ensures t[r.reviewId.value] in FindByCompanyId(t, oldOwner)
    ensures t[r.reviewId.value] !in FindByCompanyId(Save(t, r, generatedId), oldOwner)
    ensures r in FindByCompanyId(Save(t, r, generatedId), r.CompanyId().value)
  {
    var key := r.reviewId.value;
    var t' := Save(t, r, generatedId);
    assert t'[key] == r;
    forall j | j in t' && t'[j].CompanyId() == Some(oldOwner)
      ensures t'[j] != t[key]
    {
      assert j != key && t'[j] == t[j] && t[j].reviewId == Some(j);
    }
  }

  /**
   * Saving a review that belongs to another company, under a key that is
   * not company `d`'s, leaves company `d`'s listing as it was.
   */
  lemma {:induction false} SaveKeepsOtherCompanies(t: ReviewTable, r: Review, generatedId: Id, d: Id)
    requires r.reviewId.None? ==> generatedId !in t
    requires r.CompanyId() != Some(d)
    requires SaveKey(r, generatedId) in t ==> t[SaveKey(r, generatedId)].CompanyId() != Some(d)
    ensures FindByCompanyId(Save(t, r, generatedId), d) == FindByCompanyId(t, d)
  {
    var key := SaveKey(r, generatedId);
    PutKeepsOtherCompanies(t, key, r.(reviewId := Some(key)), d);
  }
}
