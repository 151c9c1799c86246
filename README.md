# Job board association core, in Dafny

This project models the company-association layer of the job board REST
backend. Two service classes bind jobs and reviews to the company that owns
them. Everything they do is a small validate-then-mutate step over tables.

- `ReviewServiceImpl` reaches every review through the company in the
  request path. It lists a company's reviews. It adds a review only for an
  existing company, and the path company replaces any company in the body.
  Reads, updates and deletes are scoped by the pair (companyId, reviewId),
  and an update never changes a review's company.
- `JobServiceImpl` creates a job only for an existing company. A missing
  company id and an unknown company id are two different errors. An update
  copies five scalar fields and re-binds the company only when the update
  names one. A delete turns any storage failure into `false`.
- `ReviewRepository` declares the two derived queries the review service
  depends on: reviews by company id, and a review by company id plus review
  id.

Layout (one module per source file, plus two small shared modules):

| file | module | contents |
|---|---|---|
| `wrappers.dfy` | `Wrappers` | `Option`, standing in for `null` and `Optional` |
| `domain.dfy` | `Domain` | `Company`, `Job`, `Review`, the company table and the company lookup |
| `review_repository.dfy` | `ReviewRepository` | the review table; the two derived queries; `save` and `delete` as table functions; lemmas on tenancy isolation |
| `review_service_impl.dfy` | `ReviewServiceImpl` | class `ReviewService` over the company and review tables |
| `job_service_impl.dfy` | `JobServiceImpl` | `Outcome` (the service's exceptions) and class `JobService` over the company and job tables |
| `scenarios.dfy` | `Scenarios` | multi-call runs of both services on small stores |

Modelling decisions:

- Each table is a `map` keyed by entity id. A service holds its company table
  as a `const`, because neither service ever writes a company. The
  review and job tables are `var` fields that the methods reassign.
- Fetched entities are value copies. In `updateJob`, the setters run before
  the possible throw, but `save` is never reached, so the stored job stays as
  it was. The model gives the same result.
- `save` is an upsert keyed by the entity's id. When the body carries no id,
  the storage assigns one. That id is the method parameter `generatedId`,
  which must not be in the table yet. When the body carries an id, `save`
  writes that row.
- The two exceptions `createJob` and `updateJob` throw are the `Outcome`
  values `InvalidInput` and `InvalidReference(id)`. Normal returns are
  `Ok(())` for `createJob` and `Ok(b)` for `updateJob`.
- Whether `deleteById` throws is up to the storage library (for example, on a
  missing id). It is the parameter `storageFails` of `DeleteJobById`.
- Query results (`List`) are sets. Their order is unspecified, and review
  ids are unique, so a set loses nothing a caller can rely on.
- Each class has a `Valid()` invariant that every method keeps: rows are
  keyed by their own id, and every stored job or review refers to a stored
  company row.

Where the design description and the code differ, the model follows the code:

- The design says deleting a job that does not exist reports `false`. The
  code returns `false` only when `deleteById` throws, and whether it throws
  for a missing id depends on the library version. The model leaves this
  open through `storageFails`. It proves that a missing id changes nothing
  either way.
- The design says review access is strictly scoped by (companyId, reviewId).
  That holds for read, update and delete. It does not hold for `addReview`.
  `save` upserts on the body's `reviewId`, so a body that carries another
  company's review id overwrites that review and moves it to the path
  company. `ReviewRepository.SaveWithForeignIdRehomes` proves this.

## Model

| member | source | states |
|---|---|---|
| `Domain.LookupCompany` | src/main/java/com/vishwa/firstjobapp/review/impl/ReviewServiceImpl.java:55-58 | The company lookup is present exactly for a stored id, and then it is the stored row carrying that id. |
| `ReviewRepository.FindByCompanyId` | src/main/java/com/vishwa/firstjobapp/review/ReviewRepository.java:9-11 | Sound: every result is a stored review of that company. Complete: every stored review of that company is in the result. The result is empty exactly when the company has no review. |
| `ReviewRepository.FindByCompanyIdAndReviewId` | src/main/java/com/vishwa/firstjobapp/review/ReviewRepository.java:13-17 | A hit is the stored review with that reviewId and that company id. The result is empty exactly when no stored row matches both ids, so it is empty when the review is absent or belongs to another company. |
| `ReviewRepository.Save` | src/main/java/com/vishwa/firstjobapp/review/impl/ReviewServiceImpl.java:66 | `save` is an upsert. It stores the review under its id, or under the fresh generated id when it has none. Every other row is unchanged. A review without an id adds exactly one row. Rows stay keyed by their ids. |
| `ReviewRepository.Delete` | src/main/java/com/vishwa/firstjobapp/review/impl/ReviewServiceImpl.java:136 | `delete(entity)` removes exactly the row with the entity's id and keeps every other row as it was. An entity without an id changes nothing. |
| `ReviewRepository.ScopedLookupAgreesWithListing` | src/main/java/com/vishwa/firstjobapp/review/ReviewRepository.java:9-17 | The two queries agree: the scoped lookup returns `x` exactly when `x` is in the company's listing and carries the reviewId. |
| `ReviewRepository.PutKeepsOtherCompanies` | src/main/java/com/vishwa/firstjobapp/review/impl/ReviewServiceImpl.java:101-114 | A write to a row that belongs to company `d` neither before nor after leaves `d`'s listing unchanged. This is tenancy isolation for writes. |
| `ReviewRepository.RemoveKeepsOtherCompanies` | src/main/java/com/vishwa/firstjobapp/review/impl/ReviewServiceImpl.java:131-137 | Removing a row that is not company `d`'s leaves `d`'s listing unchanged. |
| `ReviewRepository.RemoveDropsOnlyTarget` | src/main/java/com/vishwa/firstjobapp/review/impl/ReviewServiceImpl.java:131-137 | Removing a row takes exactly that review out of any company's listing and nothing else. |
| `ReviewRepository.SaveWithForeignIdRehomes` | src/main/java/com/vishwa/firstjobapp/review/impl/ReviewServiceImpl.java:58-66 | Saving a review whose body carries another company's reviewId takes that review out of the old company's listing and puts it into the new company's. |
| `ReviewRepository.SaveKeepsOtherCompanies` | src/main/java/com/vishwa/firstjobapp/review/impl/ReviewServiceImpl.java:63-66 | Saving under a key that is not company `d`'s, with a company other than `d`, leaves `d`'s listing unchanged. |
| `ReviewServiceImpl.ReviewService.constructor` | src/main/java/com/vishwa/firstjobapp/review/impl/ReviewServiceImpl.java:24-27 | The service starts over the given company and review tables and establishes its invariant. |
| `ReviewServiceImpl.ReviewService.FindAll` | src/main/java/com/vishwa/firstjobapp/review/impl/ReviewServiceImpl.java:37-40 | Returns exactly the company-scoped query result: only that company's reviews, and all of them. Nothing changes. |
| `ReviewServiceImpl.ReviewService.AddReview` | src/main/java/com/vishwa/firstjobapp/review/impl/ReviewServiceImpl.java:52-71 | Returns true exactly when the path company exists. On false, the table is unchanged. On true, the table is the old one after `save` of the body with its company replaced by the stored path company. The stored row keeps the body's name, description and rating, and it appears in the path company's listing. The invariant is kept. |
| `ReviewServiceImpl.ReviewService.FindById` | src/main/java/com/vishwa/firstjobapp/review/impl/ReviewServiceImpl.java:83-87 | Returns the review exactly when it is stored and belongs to the path company, so another company's review is never returned. Nothing changes. |
| `ReviewServiceImpl.ReviewService.UpdateReview` | src/main/java/com/vishwa/firstjobapp/review/impl/ReviewServiceImpl.java:99-118 | Returns true exactly when the scoped lookup hits. On false, the table is unchanged. On true, only that row changes: name, description and rating come from `newReview`, and its id and company stay. Every other company's listing is unchanged. The invariant is kept. |
| `ReviewServiceImpl.ReviewService.DeleteReview` | src/main/java/com/vishwa/firstjobapp/review/impl/ReviewServiceImpl.java:129-140 | Returns true exactly when the scoped lookup hits. On false, the table is unchanged. On true, exactly that row is removed, and the company's listing loses exactly that review. Every other company's listing is unchanged. |
| `JobServiceImpl.JobService.constructor` | src/main/java/com/vishwa/firstjobapp/job/impl/JobServiceImpl.java:22-25 | The service starts over the given company and job tables and establishes its invariant. |
| `JobServiceImpl.JobService.FindAll` | src/main/java/com/vishwa/firstjobapp/job/impl/JobServiceImpl.java:28-30 | Returns every stored job and nothing else. Nothing changes. |
| `JobServiceImpl.JobService.GetJobById` | src/main/java/com/vishwa/firstjobapp/job/impl/JobServiceImpl.java:34-36 | Returns the stored job when the id is stored, and absent otherwise. Nothing changes. |
| `JobServiceImpl.JobService.CreateJob` | src/main/java/com/vishwa/firstjobapp/job/impl/JobServiceImpl.java:39-57 | No company or no company id gives `InvalidInput`. A company id that is not stored gives `InvalidReference` with that id. Both errors leave the table unchanged. Otherwise the result is `Ok`, and the job is saved with the stored company in place of the body's, so the saved job's company id is the supplied one. |
| `JobServiceImpl.JobService.DeleteJobById` | src/main/java/com/vishwa/firstjobapp/job/impl/JobServiceImpl.java:61-70 | Never propagates a failure. Returns true and removes the row when the storage delete completes. Returns false with the table unchanged when it throws. A missing id changes nothing either way. |
| `JobServiceImpl.JobService.UpdateJob` | src/main/java/com/vishwa/firstjobapp/job/impl/JobServiceImpl.java:74-108 | A missing job gives `Ok(false)` with nothing changed. A company id in `updatedJob` that is not stored gives `InvalidReference` with the stored job unchanged. Otherwise the result is `Ok(true)`, and only that row changes. Its id stays. The five scalar fields come from `updatedJob`. The company is the stored one named by `updatedJob`, or the old company when `updatedJob` names none. |
| `Scenarios.JobCreationScenario` | src/main/java/com/vishwa/firstjobapp/job/impl/JobServiceImpl.java:41-56 | With company 1 stored, a job created for company 1 is found again with company id 1. Company 999 gives `InvalidReference(999)`. No company gives `InvalidInput`. |
| `Scenarios.JobReassignScenario` | src/main/java/com/vishwa/firstjobapp/job/impl/JobServiceImpl.java:78-105 | An update naming company 2 re-binds a job of company 1. A later update naming no company keeps company 2. An update naming an unknown company fails and keeps the previous title. |
| `Scenarios.ReviewTenancyScenario` | src/main/java/com/vishwa/firstjobapp/review/impl/ReviewServiceImpl.java:52-139 | Company 2 cannot read, update or delete company 1's review. Company 1's update, whose body names company 2, changes the name but keeps company 1. Adding a review for a missing company is refused. |

## Left out

- `ReviewController` (HTTP routing and the mapping of results to status codes) is not part of this model.
- The service interfaces `ReviewService` and `JobService` hold no logic. They only gave the method shapes.
- Spring wiring, JPA persistence internals and transactions are not modelled. The tables are in-memory maps.
- Storage id generation is not modelled. A fresh id is a parameter (`generatedId`) of the operations that may insert.
- `save` with a body id that is not stored inserts a row under that id in the model. What JPA actually does in that case (generate a new id, or throw) depends on the library and is not modelled.
- Whether `deleteById` throws, and for which ids, is not modelled. It is the parameter `storageFails`.
- The `System.err` logging in `deleteJobById` is I/O and is left out.
- `CompanyService` and `CompanyRepository` are not part of this model. Both company lookups are one map lookup, `Domain.LookupCompany`.
- The entity classes `Job`, `Review` and `Company` are not part of this model. Their scalar fields are strings, except the rating, which is a `real`. The core only copies these fields, so their types and the rating's floating-point form do not matter here.
- Ids are unbounded integers. The 64-bit range of `Long` and a `null` path id are not modelled, because path ids are always present.
- The listing queries return sets, so the order of the returned `List` is not modelled.
