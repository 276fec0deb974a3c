/** The job records of script.js: the two built-in jobs, the job list the
    pages load (`fetchJobs`), the job-post form and the poster's list of
    locally posted jobs (`tcv_jobs_local`). */
module Jobs {
  import opened Seqs
  import opened Text
  import Forms

  /** `contact: { name, email, phone }`. */
  datatype Contact = Contact(name: string, email: string, phone: string)

  /** A job record. A field the record does not have reads as the empty
      string (or as no contact); `jobType` is the record's `type`. */
  datatype Job = Job(
    id: string,
    title: string,
    company: string,
    location: string,
    salary: string,
    jobType: string,
    postedAt: string,
    description: seq<string>,
    requirements: seq<string>,
    benefits: seq<string>,
    cover: string,
    contact: Option<Contact>,
    posterEmail: string,
    category: string)

  /** `DEFAULT_JOBS`, shown when the job file cannot be used. */
  const DefaultJobs: seq<Job> := [
    Job(
      id := "rv-sales-001",
      title := "[Nam] Nhân viên Kinh doanh khối KH Khu Công Nghiệp Nhật Bản",
      company := "Công ty RAVI",
      location := "Hà Nội",
      salary := "Up to 15 triệu + thưởng nóng",
      jobType := "Toàn thời gian",
      postedAt := "3 ngày trước",
      description := [
        "Tìm kiếm, mở rộng tệp khách hàng khu công nghiệp Nhật Bản.",
        "Tư vấn giải pháp, đàm phán ký kết hợp đồng.",
        "Quản lý pipeline, theo dõi công nợ và chăm sóc sau bán."],
      requirements := [
        "Nam, tốt nghiệp CĐ/ĐH, ưu tiên biết tiếng Nhật/N2 trở lên.",
        "Kinh nghiệm sales B2B 1 năm+, ưu tiên ngành công nghiệp.",
        "Giao tiếp tốt, chịu được áp lực, sẵn sàng di chuyển."],
      benefits := [
        "Lương cứng + % hoa hồng + thưởng nóng theo doanh số.",
        "BHXH, nghỉ phép, lộ trình thăng tiến rõ ràng.",
        "Đào tạo kỹ năng sales, phụ cấp điện thoại/đi lại."],
      cover := "",
      contact := Some(Contact("Phòng Nhân sự", "hr@ravi.vn", "024-1234-5678")),
      posterEmail := "",
      category := ""),
    Job(
      id := "hz-sale-002",
      title := "Nhân viên Sale/Trực Page",
      company := "HAZALY",
      location := "Hồ Chí Minh",
      salary := "7 - 12 triệu + KPI",
      jobType := "Toàn thời gian",
      postedAt := "Hôm nay",
      description := [
        "Tư vấn khách hàng qua inbox, chốt đơn, chăm sóc sau bán."],
      requirements := [
        "Có kinh nghiệm trực page là lợi thế."],
      benefits := [
        "Lương cơ bản + thưởng KPI, môi trường năng động."],
      cover := "",
      contact := None,
      posterEmail := "",
      category := "")
  ]

  /** How the request for `data/jobs.json` ended: an answer that is not ok,
      a failure (network or unreadable body), or a body that is a list of
      jobs (`Some`) or something else (`None`). */
  datatype Fetch = NotOk | Failed | Loaded(data: Option<seq<Job>>)

  /** `fetchJobs`: the locally posted jobs first, then the jobs of the file
      when it holds a non-empty list, else the built-in jobs. An answer that
      is not ok gives the built-in jobs alone, without the local ones. */
  function FetchJobs(local: seq<Job>, f: Fetch): (r: seq<Job>)
    ensures f.NotOk? ==> r == DefaultJobs
    ensures !f.NotOk? ==> |local| <= |r| && r[..|local|] == local
    ensures !f.NotOk? && !(f.Loaded? && f.data.Some? && f.data.value != []) ==> r[|local|..] == DefaultJobs
    ensures f.Loaded? && f.data.Some? && f.data.value != [] ==> r[|local|..] == f.data.value
    ensures r != []
  {
    match f
    case NotOk => DefaultJobs
    case Failed => local + DefaultJobs
    case Loaded(data) =>
      if data.Some? && data.value != [] then local + data.value else local + DefaultJobs
  }

  /** A locally posted job is on the list unless the answer was not ok. */
  lemma PostedJobListed(local: seq<Job>, f: Fetch, job: Job)
    requires job in local
    ensures job in FetchJobs(local, f) <==> !f.NotOk? || job in DefaultJobs
  {
    var r := FetchJobs(local, f);
    if !f.NotOk? {
      var k :| 0 <= k < |local| && local[k] == job;
      assert r[k] == job;
    }
  }

  /** `jobs.find(j => j.id === jobId)`: the first job with the id. */
  function FindJob(jobs: seq<Job>, id: string): (r: Option<Job>)
    ensures r.Some? ==> r.value in jobs && r.value.id == id
    ensures r.Some? ==> exists k | 0 <= k < |jobs| :: jobs[k] == r.value && forall j | 0 <= j < k :: jobs[j].id != id
    ensures r.None? <==> forall j | 0 <= j < |jobs| :: jobs[j].id != id
  {
    var k := FirstIndex(jobs, (j: Job) => j.id == id);
    if k < 0 then None
    else
      assert forall j | 0 <= j < k :: jobs[j].id != id;
      Some(jobs[k])
  }

  /** `currentJob?.posterEmail || currentJob?.contact?.email || ''`: who an
      application for the job goes to. */
  function PosterEmailOf(job: Option<Job>): (e: string)
    ensures job.Some? && job.value.posterEmail != [] ==> e == job.value.posterEmail
    ensures job.Some? && job.value.posterEmail == [] && job.value.contact.Some? ==> e == job.value.contact.value.email
    ensures job.None? || (job.value.posterEmail == [] && job.value.contact.None?) ==> e == []
    ensures e != [] ==> job.Some? && (e == job.value.posterEmail || (job.value.contact.Some? && e == job.value.contact.value.email))
  {
    if job.None? then []
    else if job.value.posterEmail != [] then job.value.posterEmail
    else if job.value.contact.Some? then job.value.contact.value.email
    else []
  }

  /** The values of the job-post form, as typed. */
  datatype JobForm = JobForm(
    title: string,
    category: string,
    location: string,
    cover: string,
    desc: string,
    req: string,
    benefits: string,
    salary: string,
    jobType: string,
    contactEmail: string)

  /** The record the form creates, with id `stamp` (the text of
      `Date.now()`), the signed-in name (empty for none) and address. The
      form's category is validated but not stored. */
  function JobFromForm(form: JobForm, stamp: string, storedName: string, storedEmail: string): (job: Job)
    ensures job.id == stamp && job.posterEmail == storedEmail
    ensures job.title == Trim(form.title) && job.location == Trim(form.location) && job.salary == Trim(form.salary)
    ensures job.company == if storedName == [] then "Nhà tuyển dụng" else storedName
    ensures job.jobType == if Trim(form.jobType) == [] then "Toàn thời gian" else Trim(form.jobType)
    ensures job.postedAt == "Vừa đăng" && job.category == []
    ensures job.description == Lines(form.desc) && job.requirements == Lines(form.req) && job.benefits == Lines(form.benefits)
    ensures forall i | 0 <= i < |job.description| :: job.description[i] != [] && '\n' !in job.description[i]
    ensures job.cover == Trim(form.cover)
    ensures job.contact == Some(Contact(if storedName == [] then "HR" else storedName, Trim(form.contactEmail), []))
  {
    Job(
      id := stamp,
      title := Trim(form.title),
      company := if storedName == [] then "Nhà tuyển dụng" else storedName,
      location := Trim(form.location),
      salary := Trim(form.salary),
      jobType := if Trim(form.jobType) == [] then "Toàn thời gian" else Trim(form.jobType),
      postedAt := "Vừa đăng",
      description := Lines(form.desc),
      requirements := Lines(form.req),
      benefits := Lines(form.benefits),
      cover := Trim(form.cover),
      contact := Some(Contact(if storedName == [] then "HR" else storedName, Trim(form.contactEmail), [])),
      posterEmail := storedEmail,
      category := [])
  }

  /** `tcv_jobs_local`, the jobs posted from this browser, newest first. */
  class LocalJobs {
    var jobs: seq<Job>

    constructor ()
      ensures jobs == []
    {
      jobs := [];
    }

    /** The job-post form's submit: title, category and description must
        not be blank; then the new job goes in front of the list. */
    method Post(form: JobForm, stamp: string, storedName: string, storedEmail: string) returns (ok: bool)
      modifies this
      ensures ok <==> !Blank(form.title) && !Blank(form.category) && !Blank(form.desc)
      ensures jobs == if ok then [JobFromForm(form, stamp, storedName, storedEmail)] + old(jobs) else old(jobs)
    {
      var fields := [form.title, form.category, form.desc];
      var invalid;
      ok, invalid := Forms.ValidateRequired(fields);
      assert fields[0] == form.title && fields[1] == form.category && fields[2] == form.desc;
      assert ok <==> !Blank(fields[0]) && !Blank(fields[1]) && !Blank(fields[2]);
      if !ok {
        return;
      }
      jobs := [JobFromForm(form, stamp, storedName, storedEmail)] + jobs;
    }

    /** The delete button of the managed-job list: the local jobs without
        the one with `id`. */
    method Delete(id: string)
      modifies this
      ensures jobs == Filter(old(jobs), (j: Job) => j.id != id)
      ensures forall j | j in jobs :: j.id != id
      ensures forall j | j in old(jobs) && j.id != id :: j in jobs
    {
      var keep := (j: Job) => j.id != id;
      forall j | j in jobs && j.id != id ensures j in Filter(jobs, keep) {
        FilterMembership(jobs, keep, j);
      }
      jobs := Filter(jobs, keep);
    }
  }
}
