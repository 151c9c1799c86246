/**
 * End-to-end runs of the two services on small stores, checking the
 * behaviours the design promises across several calls.
 */
module Scenarios {
  import opened Wrappers
  import opened Domain
  import opened ReviewRepository
  import opened ReviewServiceImpl
  import opened JobServiceImpl

  /**
   * Company 1 exists. A job created for company 1 is found again with
   * company id 1; a job naming company 999 is rejected as an invalid
   * reference; a job with no company at all as invalid input.
   */
  method JobCreationScenario() returns (created: Outcome<()>, fetched: Option<Job>,
                                        unknown: Outcome<()>, missing: Outcome<()>)
    ensures created == Ok(())
    ensures fetched.Some? && fetched.value.title == "Eng" && fetched.value.CompanyId() == Some(1)
    ensures unknown == InvalidReference(999)
    ensures missing == InvalidInput
  {
    var service := new JobService(map[1 := Company(Some(1), "Acme")], map[]);
    created := service.CreateJob(Job(None, "Eng", "", "", "", "", Some(Company(Some(1), ""))), 10);
    fetched := service.GetJobById(10);
    unknown := service.CreateJob(Job(None, "X", "", "", "", "", Some(Company(Some(999), ""))), 11);
    missing := service.CreateJob(Job(None, "Y", "", "", "", "", None), 12);
  }

  /**
   * Job 7 belongs to company 1. An update naming company 2 re-binds it; a
   * later update naming no company keeps company 2; an update naming an
   * unknown company fails and leaves the title as it was.
   */
  method JobReassignScenario() returns (moved: Outcome<bool>, kept: Outcome<bool>,
                                        rejected: Outcome<bool>, after: Option<Job>)
    ensures moved == Ok(true) && kept == Ok(true) && rejected == InvalidReference(3)
    ensures after.Some? && after.value.CompanyId() == Some(2) && after.value.title == "Lead"
  {
    var c1, c2 := Company(Some(1), "One"), Company(Some(2), "Two");
    var service := new JobService(map[1 := c1, 2 := c2], map[7 := Job(Some(7), "Dev", "", "", "", "", Some(c1))]);
    moved := service.UpdateJob(7, Job(None, "Dev", "", "", "", "", Some(Company(Some(2), ""))));
    kept := service.UpdateJob(7, Job(None, "Lead", "", "", "", "", None));
    rejected := service.UpdateJob(7, Job(None, "Gone", "", "", "", "", Some(Company(Some(3), ""))));
    after := service.GetJobById(7);
  }

  /**
   * Review 5 belongs to company 1 and company 2 also exists. Company 2
   * cannot see, update or delete it; company 1 updates it with a body that
   * names company 2, and the review still belongs to company 1. A review
   * for a company that does not exist is refused.
   */
  method ReviewTenancyScenario() returns (foreignRead: Option<Review>, foreignUpdate: bool,
                                          foreignDelete: bool, ownUpdate: bool,
                                          after: Option<Review>, orphan: bool)
    ensures foreignRead == None && !foreignUpdate && !foreignDelete
    ensures ownUpdate && after.Some? && after.value.CompanyId() == Some(1) && after.value.name == "Great"
    ensures !orphan
  {
    var c1, c2 := Company(Some(1), "One"), Company(Some(2), "Two");
    var service := new ReviewService(map[1 := c1, 2 := c2], map[5 := Review(Some(5), "Ok", "", 3.0, Some(c1))]);
    foreignRead := service.FindById(2, 5);
    foreignUpdate := service.UpdateReview(2, 5, Review(None, "Bad", "", 1.0, None));
    foreignDelete := service.DeleteReview(2, 5);
    ownUpdate := service.UpdateReview(1, 5, Review(None, "Great", "", 5.0, Some(c2)));
    after := service.FindById(1, 5);
    orphan := service.AddReview(3, Review(None, "Who", "", 2.0, Some(c1)), 6);
  }
}
