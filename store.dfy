/** The job list the screen keeps in memory, with the handlers that change it
    and the save that follows each change. `stored` stands for the records
    kept under the "jobs_json" preference key. */
module Store {
  import opened Wrappers
  import opened Seqs
  import opened Text
  import opened Jobs
  import opened Codec

  /** The three demo entries differ from each other, so deleting one of them
      from the demo list takes that entry off the screen and keeps the other
      two in order. */
  lemma DemoDelete(k: nat)
    requires k < |DemoJobs|
    ensures DemoJobs[k] !in RemoveFirst(DemoJobs, DemoJobs[k])
    ensures RemoveFirst(DemoJobs, DemoJobs[k]) == DemoJobs[..k] + DemoJobs[k + 1..]
  {
    assert DemoJobs == DemoJobs[..k] + [DemoJobs[k]] + DemoJobs[k + 1..];
    RemoveFirstSplit(DemoJobs, DemoJobs[k], DemoJobs[..k], DemoJobs[k + 1..]);
  }

  class JobStore {
    /** The mutable state list `jobs`, in display order. */
    var jobs: seq<JobItem>
    /** What the preference store holds, at record level. */
    var stored: seq<JsonObject>

    /** The saved records read back as the list on screen. */
    ghost predicate Valid()
      reads this
    {
      DecodeJobs(stored) == jobs
    }

    /** The start-up load: a missing or blank saved value gives the three demo
        entries, which are then saved; anything else is decoded and shown as
        it is, and the store keeps it. `parse` stands for reading the JSON
        text into its records. */
    constructor Load(saved: Option<string>, parse: string -> seq<JsonObject>)
      ensures Valid()
      ensures saved.None? || IsBlank(saved.value) ==> jobs == DemoJobs && stored == Encoded(DemoJobs)
      ensures saved.Some? && !IsBlank(saved.value) ==>
                jobs == DecodeJobs(parse(saved.value)) && stored == parse(saved.value)
    {
      jobs, stored := [], [];
      new;
      if saved.None? || IsBlank(saved.value) {
        jobs := jobs + DemoJobs;
        Save();
      } else {
        stored := parse(saved.value);
        jobs := jobs + DecodeJobs(stored);
      }
    }

    /** `saveJobs`: the whole list, encoded, replaces what the store holds. */
    method Save()
      modifies this`stored
      ensures Valid()
      ensures stored == Encoded(jobs)
    {
      stored := EncodeJobs(jobs);
      DecodeEncode(jobs);
    }

    /** The "Add" button: with a non-blank title and company, the new entry
        goes in front of the list and the list is saved; otherwise nothing
        changes. */
    method Add(title: string, company: string, status: string) returns (added: bool)
      requires Valid()
      modifies this
      ensures Valid()
      ensures added <==> !IsBlank(title) && !IsBlank(company)
      ensures added ==> jobs == [JobItem(title, company, status)] + old(jobs) && stored == Encoded(jobs)
      ensures !added ==> jobs == old(jobs) && stored == old(stored)
    {
      added := !IsBlank(title) && !IsBlank(company);
      if added {
        jobs := [JobItem(title, company, status)] + jobs;
        Save();
      }
    }

    /** A status chosen on a card: the first entry equal to `job` is replaced,
        at the same position, by a copy with the new status, and the list is
        saved. The card's entry is always in the list, since cards are drawn
        from it. */
    method ChangeStatus(job: JobItem, status: string)
      requires Valid() && job in jobs
      modifies this
      ensures Valid()
      ensures jobs == ReplaceFirst(old(jobs), job, WithStatus(job, status))
      ensures stored == Encoded(jobs)
    {
      var i := FirstIndex(jobs, job);
      jobs := jobs[i := WithStatus(job, status)];
      Save();
    }

    /** "Delete" on a card: the first entry equal to `job` goes, if there is
        one, and the list is saved either way. */
    method Delete(job: JobItem)
      requires Valid()
      modifies this
      ensures Valid()
      ensures jobs == RemoveFirst(old(jobs), job)
      ensures stored == Encoded(jobs)
    {
      jobs := RemoveFirst(jobs, job);
      Save();
    }
  }
}
