/**
 * `ReviewServiceImpl`: the review operations of one company, reached through
 * the path `companyId`. Every read and write is scoped by the pair
 * (companyId, reviewId), and a review's company is fixed when it is added.
 */
module ReviewServiceImpl {
  import opened Wrappers
  import opened Domain
  import opened ReviewRepository

  class ReviewService {
    /** The company table, as seen through the company lookup; read only here. */
    const companies: CompanyTable
    /** The review table behind `ReviewRepository`. */
    var reviews: ReviewTable

    /** Every stored review is keyed by its id and belongs to a stored company. */
    ghost predicate Valid()
      reads this
    {
      && CompanyTableValid(companies)
      && WellKeyed(reviews)
      && forall k :: k in reviews ==> RefersToStored(reviews[k].company, companies)
    }

    constructor (companies: CompanyTable, reviews: ReviewTable)
      requires CompanyTableValid(companies) && WellKeyed(reviews)
      requires forall k :: k in reviews ==> RefersToStored(reviews[k].company, companies)
      ensures Valid()
      ensures this.companies == companies && this.reviews == reviews
    {
      this.companies := companies;
      this.reviews := reviews;
    }

    /** `findAll(companyId)`: the company-scoped listing, every table unchanged. */
    method FindAll(companyId: Id) returns (rs: set<Review>)
      requires Valid()
      ensures rs == FindByCompanyId(reviews, companyId)
      ensures forall r :: r in rs ==> r.CompanyId() == Some(companyId)
      ensures forall k :: k in reviews && reviews[k].CompanyId() == Some(companyId) ==> reviews[k] in rs
    {
      rs := FindByCompanyId(reviews, companyId);
    }

    /**
     * `addReview(companyId, review)`: fails, writing nothing, when the company
     * does not exist; otherwise the path company replaces whatever company the
     * body carries and the review is saved (an upsert on the body's reviewId).
     */
    method AddReview(companyId: Id, review: Review, generatedId: Id) returns (added: bool)
      requires Valid()
      requires review.reviewId.None? ==> generatedId !in reviews
      modifies this
      ensures Valid()
      ensures added <==> companyId in companies
      ensures !added ==> reviews == old(reviews)
      ensures added ==> reviews == Save(old(reviews), review.(company := Some(companies[companyId])), generatedId)
      ensures added ==>
        var stored := reviews[SaveKey(review, generatedId)];
        && stored.CompanyId() == Some(companyId)
        && stored.company == Some(companies[companyId])
        && stored.name == review.name && stored.description == review.description && stored.rating == review.rating
        && stored in FindByCompanyId(reviews, companyId)
    {
      var company := LookupCompany(companies, companyId);
      if company.Some? {
        var bound := review.(company := company);
        reviews := Save(reviews, bound, generatedId);
        added := true;
      } else {
        added := false;
      }
    }

    /**
     * `findById(companyId, reviewId)`: the review only when both ids match;
     * another company's review is never returned.
     */
    method FindById(companyId: Id, reviewId: Id) returns (found: Option<Review>)
      requires Valid()
      ensures found == FindByCompanyIdAndReviewId(reviews, companyId, reviewId)
      ensures found.Some? <==> reviewId in reviews && reviews[reviewId].CompanyId() == Some(companyId)
      ensures found.Some? ==> found.value == reviews[reviewId]
      ensures found.Some? ==> found.value.reviewId == Some(reviewId) && found.value.CompanyId() == Some(companyId)
    {
      found := FindByCompanyIdAndReviewId(reviews, companyId, reviewId);
    }

    /**
     * `updateReview(companyId, reviewId, newReview)`: on a scoped hit, name,
     * description and rating come from `newReview`; the id and the company
     * stay. On a miss nothing changes. Other companies never see a change.
     */
    method UpdateReview(companyId: Id, reviewId: Id, newReview: Review) returns (updated: bool)
      requires Valid()
      modifies this
      ensures Valid()
      ensures updated <==> old(FindByCompanyIdAndReviewId(reviews, companyId, reviewId)).Some?
      ensures !updated ==> reviews == old(reviews)
      ensures updated ==>
        reviews == old(reviews)[reviewId := old(reviews)[reviewId].(
          name := newReview.name, description := newReview.description, rating := newReview.rating)]
      ensures updated ==>
        && reviews[reviewId].company == old(reviews)[reviewId].company
        && reviews[reviewId].reviewId == Some(reviewId)
      ensures forall d :: d != companyId ==> FindByCompanyId(reviews, d) == old(FindByCompanyId(reviews, d))
    {
      var existing := FindByCompanyIdAndReviewId(reviews, companyId, reviewId);
      if existing.Some? {
        var review := existing.value;
        review := review.(name := newReview.name);
        review := review.(description := newReview.description);
        review := review.(rating := newReview.rating);
        ghost var before := reviews;
        reviews := Save(reviews, review, reviewId);
        forall d | d != companyId
          ensures FindByCompanyId(reviews, d) == FindByCompanyId(before, d)
        {
          PutKeepsOtherCompanies(before, reviewId, review, d);
        }
        updated := true;
      } else {
        updated := false;
      }
    }

    /**
     * `deleteReview(companyId, reviewId)`: on a scoped hit, exactly that
     * review is removed; on a miss nothing changes.
     */
    method DeleteReview(companyId: Id, reviewId: Id) returns (deleted: bool)
      requires Valid()
      modifies this
      ensures Valid()
      ensures deleted <==> old(FindByCompanyIdAndReviewId(reviews, companyId, reviewId)).Some?
      ensures !deleted ==> reviews == old(reviews)
      ensures deleted ==> reviews == old(reviews) - {reviewId}
      ensures deleted ==>
        FindByCompanyId(reviews, companyId) == old(FindByCompanyId(reviews, companyId)) - {old(reviews)[reviewId]}
      ensures forall d :: d != companyId ==> FindByCompanyId(reviews, d) == old(FindByCompanyId(reviews, d))
    {
      var toDelete := FindByCompanyIdAndReviewId(reviews, companyId, reviewId);
      if toDelete.Some? {
        ghost var before := reviews;
        reviews := Delete(reviews, toDelete.value);
        assert reviews == before - {reviewId};
        RemoveDropsOnlyTarget(before, reviewId, companyId);
        forall d | d != companyId
          ensures FindByCompanyId(reviews, d) == FindByCompanyId(before, d)
        {
          RemoveKeepsOtherCompanies(before, reviewId, d);
        }
        deleted := true;
      } else {
        deleted := false;
      }
    }
  }
}
