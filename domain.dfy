/**
 * The entities of the job board as seen by the association core: Company,
 * Job and Review, each identified by a `Long` id that may still be `null`
 * before the storage assigns one.
 */
module Domain {
  import opened Wrappers

  /** A `java.lang.Long` entity id (the model does not bound it to 64 bits). */
  type Id = int

  /**
   * A company row. Only `companyId` matters to the core; `details` stands for
   * every other column of the row, which the core passes around but never reads.
   */
  datatype Company = Company(companyId: Option<Id>, details: string)

  /** A job posting and the company it belongs to (`null` while unresolved). */
  datatype Job = Job(
    jobId: Option<Id>,
    title: string,
    description: string,
    minSalary: string,
    maxSalary: string,
    location: string,
    company: Option<Company>)
  {
    /** `getCompany().getCompanyId()`, absent when either link is `null`. */
    function CompanyId(): Option<Id> {
      if company.Some? then company.value.companyId else None
    }
  }

  /** A review of a company. */
  datatype Review = Review(
    reviewId: Option<Id>,
    name: string,
    description: string,
    rating: real,
    company: Option<Company>)
  {
    /** `getCompany().getCompanyId()`, absent when either link is `null`. */
    function CompanyId(): Option<Id> {
      if company.Some? then company.value.companyId else None
    }
  }

  /** The company table, keyed by companyId. The core only reads it. */
  type CompanyTable = map<Id, Company>

  /** Every company row is stored under its own id. */
  predicate CompanyTableValid(companies: CompanyTable) {
    forall k :: k in companies ==> companies[k].companyId == Some(k)
  }

  /**
   * The association `company` points at a stored company row, i.e. it is
   * exactly the canonical row the company lookup returns for its id.
   */
  predicate RefersToStored(company: Option<Company>, companies: CompanyTable) {
    && company.Some?
    && company.value.companyId.Some?
    && company.value.companyId.value in companies
    && companies[company.value.companyId.value] == company.value
  }

  /**
   * The company lookup shared by both services (`CompanyService.getCompanyById`
   * returning `null` for a missing id, `CompanyRepository.findById` returning an
   * empty `Optional`): present exactly for a stored id, and then it is the
   * stored row, whose own id is the one looked up.
   */
  function LookupCompany(companies: CompanyTable, id: Id): (found: Option<Company>)
    requires CompanyTableValid(companies)
    ensures found.Some? <==> id in companies
    ensures found.Some? ==> found.value.companyId == Some(id) && RefersToStored(found, companies)
  {
    if id in companies then Some(companies[id]) else None
  }
}
