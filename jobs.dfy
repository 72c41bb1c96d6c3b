/** The one record of the job tracker and the fixed values the screen uses. */
module Jobs {

  /** One tracked job application. Equality is structural, as for a Kotlin
      `data class`: two entries with the same three fields are the same entry. */
  datatype JobItem = JobItem(title: string, company: string, status: string)

  /** The status a new entry starts with, and the one a saved record without a
      status is given. */
  const DefaultStatus: string := "Wishlist"

  /** The filter choice that shows every status. */
  const AllFilter: string := "All"

  /** The entries a first start shows, in display order. */
  const DemoJobs: seq<JobItem> := [
    JobItem("Android Developer", "Yodeck", "Applied"),
    JobItem("Junior Software Engineer", "Netcompany", "Wishlist"),
    JobItem("Backend Developer Intern", "Intralot", "Interview")
  ]

  /** `job.copy(status = status)`: the same title and company, another status. */
  function WithStatus(job: JobItem, status: string): (r: JobItem)
    ensures r.title == job.title && r.company == job.company && r.status == status
    ensures r == job <==> job.status == status
  {
    job.(status := status)
  }
}
