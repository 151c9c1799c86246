/**
 * `JobServiceImpl`: the job operations. A job is bound to an existing
 * company when it is created and may be re-bound on update; the two ways a
 * company reference can be wrong raise two distinct errors.
 */
module JobServiceImpl {
  import opened Wrappers
  import opened Domain

  /**
   * The outcome of a job operation: a normal return, or one of the two
   * `IllegalArgumentException`s the service throws (missing company
   * information; a company id that does not resolve).
   */
  datatype Outcome<+T> = Ok(value: T) | InvalidInput | InvalidReference(companyId: Id)

  /** The job table behind `JobRepository`, keyed by jobId. */
  type JobTable = map<Id, Job>

  /** The key `save` stores a job under: its own id, or the id the storage generates. */
  function SaveKey(job: Job, generatedId: Id): Id {
    job.jobId.GetOr(generatedId)
  }

  class JobService {
    /** The company table behind `CompanyRepository`; read only here. */
    const companies: CompanyTable
    /** The job table behind `JobRepository`. */
    var jobs: JobTable

    /** Every stored job is keyed by its id and belongs to a stored company. */
    ghost predicate Valid()
      reads this
    {
      && CompanyTableValid(companies)
      && forall k :: k in jobs ==> jobs[k].jobId == Some(k) && RefersToStored(jobs[k].company, companies)
    }

    constructor (companies: CompanyTable, jobs: JobTable)
      requires CompanyTableValid(companies)
      requires forall k :: k in jobs ==> jobs[k].jobId == Some(k) && RefersToStored(jobs[k].company, companies)
      ensures Valid()
      ensures this.companies == companies && this.jobs == jobs
    {
      this.companies := companies;
      this.jobs := jobs;
    }

    /** `findAll()`: every stored job, and nothing else. */
    method FindAll() returns (all: set<Job>)
      ensures forall k :: k in jobs ==> jobs[k] in all
      ensures forall j :: j in all ==> exists k :: k in jobs && jobs[k] == j
    {
      all := set k | k in jobs :: jobs[k];
    }

    /** `getJobById(jobId)`: the stored job, or `null` when there is none. */
    method GetJobById(jobId: Id) returns (job: Option<Job>)
      requires Valid()
      ensures job.Some? <==> jobId in jobs
      ensures job.Some? ==> job.value == jobs[jobId] && job.value.jobId == Some(jobId)
    {
      if jobId in jobs {
        job := Some(jobs[jobId]);
      } else {
        job := None;
      }
    }

    /**
     * `createJob(job)`: a job without a company id is `InvalidInput`, one
     * whose company id is not stored is `InvalidReference`; neither saves
     * anything. Otherwise the stored company replaces the body's company and
     * the job is saved (an upsert on the body's jobId).
     */
    method CreateJob(job: Job, generatedId: Id) returns (res: Outcome<()>)
      requires Valid()
      requires job.jobId.None? ==> generatedId !in jobs
      modifies this
      ensures Valid()
      ensures res.InvalidInput? <==> job.CompanyId().None?
      ensures res.InvalidReference? <==> job.CompanyId().Some? && job.CompanyId().value !in companies
      ensures res.InvalidReference? ==> res.companyId == job.CompanyId().value
      ensures res == Ok(()) <==> job.CompanyId().Some? && job.CompanyId().value in companies
      ensures !res.Ok? ==> jobs == old(jobs)
      ensures res.Ok? ==>
        var key := SaveKey(job, generatedId);
        && jobs == old(jobs)[key := job.(jobId := Some(key), company := Some(companies[job.CompanyId().value]))]
        && jobs[key].CompanyId() == job.CompanyId()
    {
      var company := job.company;
      if company.Some? && company.value.companyId.Some? {
        var existing := LookupCompany(companies, company.value.companyId.value);
        if existing.Some? {
          var bound := job.(company := existing);
          var key := SaveKey(bound, generatedId);
          jobs := jobs[key := bound.(jobId := Some(key))];
          res := Ok(());
        } else {
          res := InvalidReference(company.value.companyId.value);
        }
      } else {
        res := InvalidInput;
      }
    }

    /**
     * `deleteJobById(jobId)`: never fails to the caller. `storageFails` is
     * whether the storage's `deleteById` threw; then the service answers
     * `false` and the table is as before, otherwise the row is gone and the
     * answer is `true`.
     */
    method DeleteJobById(jobId: Id, storageFails: bool) returns (deleted: bool)
      requires Valid()
      modifies this
      ensures Valid()
      ensures deleted <==> !storageFails
      ensures deleted ==> jobs == old(jobs) - {jobId}
      ensures !deleted ==> jobs == old(jobs)
      ensures jobId !in old(jobs) ==> jobs == old(jobs)
    {
      if storageFails {
        deleted := false;
      } else {
        jobs := jobs - {jobId};
        deleted := true;
      }
    }

    /**
     * `updateJob(jobId, updatedJob)`: `false` and no change for a missing
     * job. For a found job the five scalar fields are copied; the company is
     * re-bound only when `updatedJob` names one, and a name that does not
     * resolve is `InvalidReference` with the stored job untouched, since the
     * throw comes before `save`. Only the targeted row changes.
     */
    method UpdateJob(jobId: Id, updatedJob: Job) returns (res: Outcome<bool>)
      requires Valid()
      modifies this
      ensures Valid()
      ensures !res.InvalidInput?
      ensures jobId !in old(jobs) ==> res == Ok(false)
      ensures res.InvalidReference? <==>
        jobId in old(jobs) && updatedJob.CompanyId().Some? && updatedJob.CompanyId().value !in companies
      ensures res.InvalidReference? ==> res.companyId == updatedJob.CompanyId().value
      ensures res == Ok(true) <==>
        jobId in old(jobs) && (updatedJob.CompanyId().None? || updatedJob.CompanyId().value in companies)
      ensures res != Ok(true) ==> jobs == old(jobs)
      ensures res == Ok(true) ==>
        && jobs.Keys == old(jobs).Keys
        && forall k :: k in jobs && k != jobId ==> jobs[k] == old(jobs)[k]
      ensures res == Ok(true) ==>
        var job := jobs[jobId];
        && job.jobId == Some(jobId)
        && job.title == updatedJob.title
        && job.description == updatedJob.description
        && job.maxSalary == updatedJob.maxSalary
        && job.minSalary == updatedJob.minSalary
        && job.location == updatedJob.location
        && job.company == (if updatedJob.CompanyId().None? then old(jobs)[jobId].company
                           else Some(companies[updatedJob.CompanyId().value]))
    {
      if jobId !in jobs {
        return Ok(false);
      }
      var job := jobs[jobId];
      job := job.(title := updatedJob.title);
      job := job.(description := updatedJob.description);
      job := job.(maxSalary := updatedJob.maxSalary);
      job := job.(minSalary := updatedJob.minSalary);
      job := job.(location := updatedJob.location);
      if updatedJob.company.Some? && updatedJob.company.value.companyId.Some? {
        var existing := LookupCompany(companies, updatedJob.company.value.companyId.value);
        if existing.Some? {
          job := job.(company := existing);
        } else {
          return InvalidReference(updatedJob.company.value.companyId.value);
        }
      }
      jobs := jobs[jobId := job];
      res := Ok(true);
    }
  }
}
