/**
 * The job details page: the edit form filled from the loaded job, the multipart body sent when
 * the form is saved, and the delete request issued after the user confirms.
 */
module JobDetails {
  import opened Wrappers
  import opened ClientJobs
  import Text

  /** The form state, one field per input; all of them are text. */
  datatype Form = Form(
    company: string,
    jobTitle: string,
    status: string,
    priority: string,
    jobUrl: string,
    appliedDate: string,
    interviewDate: string,
    notes: string,
    jobDescription: string)

  /** The form before a job has loaded. */
  const BlankForm := Form("", "", "APPLIED", "MEDIUM", "", "", "", "", "")

  /** The form's keys in the order the form object declares them. */
  const FormKeys: seq<string> :=
    ["company", "jobTitle", "status", "priority", "jobUrl", "appliedDate", "interviewDate", "notes",
     "jobDescription"]

  /**
   * A date as the date input wants it: the part of its ISO text before the first `T`, or the
   * empty string when there is no date.
   */
  function DateInput(d: Option<Timestamp>): (r: string)
    ensures d.None? ==> r == ""
    ensures d.Some? ==> |r| <= |d.value.iso| && r == d.value.iso[..|r|]
    ensures d.Some? ==> 'T' !in r && (|r| < |d.value.iso| ==> d.value.iso[|r|] == 'T')
  {
    if d.Some? then Text.BeforeFirst(d.value.iso, 'T') else ""
  }

  /** For an ISO timestamp the date input receives exactly its `YYYY-MM-DD` part. */
  lemma DateInputOfIso(t: Timestamp)
    requires IsoShaped(t.iso)
    ensures DateInput(Some(t)) == t.iso[..10]
    ensures |DateInput(Some(t))| == 10
  {
    var s := t.iso;
    assert s == s[..10] + ['T'] + s[11..];
    assert 'T' !in s[..10] by {
      assert forall k :: 0 <= k < 10 ==> s[..10][k] == s[k];
    }
    Text.SplitPrefix(s[..10], s[11..], 'T');
  }

  /**
   * The form filled from a loaded job: company, title, status and priority as they are, absent
   * or empty text fields as empty strings, dates as their date part.
   */
  function FormFromJob(job: JobView): (f: Form)
    ensures f.company == job.company && f.jobTitle == job.jobTitle
    ensures f.status == job.status && f.priority == job.priority
    ensures Truthy(job.jobUrl) ==> f.jobUrl == job.jobUrl.value
    ensures Truthy(job.notes) ==> f.notes == job.notes.value
    ensures Truthy(job.jobDescription) ==> f.jobDescription == job.jobDescription.value
    ensures !Truthy(job.jobUrl) ==> f.jobUrl == ""
    ensures !Truthy(job.notes) ==> f.notes == ""
    ensures !Truthy(job.jobDescription) ==> f.jobDescription == ""
    ensures f.appliedDate == DateInput(job.appliedDate)
    ensures f.interviewDate == DateInput(job.interviewDate)
  {
    var applied := DateInput(job.appliedDate);
    var interview := DateInput(job.interviewDate);
    Form(
      job.company,
      job.jobTitle,
      job.status,
      job.priority,
      OrElse(job.jobUrl, ""),
      applied,
      interview,
      OrElse(job.notes, ""),
      OrElse(job.jobDescription, ""))
  }

  /** The form's entries, keyed as the form object names them, in declaration order. */
  function Entries(f: Form): (es: seq<(string, string)>)
    ensures |es| == |FormKeys|
    ensures forall i :: 0 <= i < |es| ==> es[i].0 == FormKeys[i]
  {
    [ ("company", f.company), ("jobTitle", f.jobTitle), ("status", f.status),
      ("priority", f.priority), ("jobUrl", f.jobUrl), ("appliedDate", f.appliedDate),
      ("interviewDate", f.interviewDate), ("notes", f.notes), ("jobDescription", f.jobDescription) ]
  }

  /** A chosen resume file. */
  datatype Upload = Upload(fileName: string, size: nat)

  /** One part of a multipart body. */
  datatype Part = Field(name: string, value: string) | File(name: string, file: Upload)

  /** What `handleSave` sends: every form entry as a field, then the resume when one was chosen. */
  function SavePayload(f: Form, resume: Option<Upload>): seq<Part> {
    FieldsOf(Entries(f)) + (if resume.Some? then [File("resume", resume.value)] else [])
  }

  function FieldsOf(es: seq<(string, string)>): (ps: seq<Part>)
    ensures |ps| == |es|
    ensures forall i :: 0 <= i < |es| ==> ps[i] == Field(es[i].0, es[i].1)
  {
    if es == [] then [] else [Field(es[0].0, es[0].1)] + FieldsOf(es[1..])
  }

  /**
   * The save body carries every form key once, in the form's order, each found under its own
   * name, and a file part exactly when a resume was chosen, as the last part.
   */
  lemma SavePayloadParts(f: Form, resume: Option<Upload>)
    ensures var ps := SavePayload(f, resume);
      && |ps| == |FormKeys| + (if resume.Some? then 1 else 0)
      && (forall i :: 0 <= i < |FormKeys| ==> ps[i].Field? && ps[i].name == FormKeys[i])
      && (forall i :: 0 <= i < |FormKeys| ==> FieldValue(ps, FormKeys[i]) == Some(ps[i].value))
      && ((exists i :: 0 <= i < |ps| && ps[i].File?) <==> resume.Some?)
      && (resume.Some? ==> ps[|ps| - 1] == File("resume", resume.value))
  {
    var ps := SavePayload(f, resume);
    forall i | 0 <= i < |FormKeys| ensures FieldValue(ps, FormKeys[i]) == Some(ps[i].value) {
      FieldOfPayload(f, resume, i);
    }
    if resume.Some? {
      assert ps[|ps| - 1].File?;
    }
  }

  /** The value of the first field part named `name`, as a multipart reader finds it. */
  function FieldValue(ps: seq<Part>, name: string): Option<string> {
    if ps == [] then None
    else if ps[0].Field? && ps[0].name == name then Some(ps[0].value)
    else FieldValue(ps[1..], name)
  }

  /** The form read back from a multipart body by its nine field names. */
  function FormOf(ps: seq<Part>): Option<Form> {
    var company := FieldValue(ps, "company");
    var jobTitle := FieldValue(ps, "jobTitle");
    var status := FieldValue(ps, "status");
    var priority := FieldValue(ps, "priority");
    var jobUrl := FieldValue(ps, "jobUrl");
    var appliedDate := FieldValue(ps, "appliedDate");
    var interviewDate := FieldValue(ps, "interviewDate");
    var notes := FieldValue(ps, "notes");
    var jobDescription := FieldValue(ps, "jobDescription");
    if && company.Some? && jobTitle.Some? && status.Some? && priority.Some? && jobUrl.Some?
       && appliedDate.Some? && interviewDate.Some? && notes.Some? && jobDescription.Some?
    then
      Some(Form(company.value, jobTitle.value, status.value, priority.value, jobUrl.value,
                appliedDate.value, interviewDate.value, notes.value, jobDescription.value))
    else None
  }

  /** Reading the save body back by field name gives exactly the form that was saved. */
  lemma SaveRoundTrip(f: Form, resume: Option<Upload>)
    ensures FormOf(SavePayload(f, resume)) == Some(f)
  {
    FieldOfPayload(f, resume, 0);
    FieldOfPayload(f, resume, 1);
    FieldOfPayload(f, resume, 2);
    FieldOfPayload(f, resume, 3);
    FieldOfPayload(f, resume, 4);
    FieldOfPayload(f, resume, 5);
    FieldOfPayload(f, resume, 6);
    FieldOfPayload(f, resume, 7);
    FieldOfPayload(f, resume, 8);
  }

  /** The form's keys are pairwise different: they differ in their first letter or their length. */
  lemma FormKeysDistinct()
    ensures forall i, j :: 0 <= i < j < |FormKeys| ==> FormKeys[i] != FormKeys[j]
  {
    assert forall i :: 0 <= i < |FormKeys| ==> |FormKeys[i]| > 0;
    assert FormKeys[1][0] == FormKeys[4][0] == FormKeys[8][0] == 'j';
    assert |FormKeys[1]| == 8 && |FormKeys[4]| == 6 && |FormKeys[8]| == 14;
  }

  /** The `i`-th form key is found in the save body with the `i`-th entry's value. */
  lemma FieldOfPayload(f: Form, resume: Option<Upload>, i: nat)
    requires i < |FormKeys|
    ensures FieldValue(SavePayload(f, resume), FormKeys[i]) == Some(Entries(f)[i].1)
  {
    var ps := SavePayload(f, resume);
    var es := Entries(f);
    assert forall j :: 0 <= j < |es| ==> ps[j] == Field(FormKeys[j], es[j].1);
    FormKeysDistinct();
    FirstField(ps, FormKeys[i], i);
  }

  /** Looking `k` up finds part `i` when it is a field named `k` and no earlier field is. */
  lemma {:induction false} FirstField(ps: seq<Part>, k: string, i: nat)
    requires i < |ps| && ps[i].Field? && ps[i].name == k
    requires forall j :: 0 <= j < i ==> !(ps[j].Field? && ps[j].name == k)
    ensures FieldValue(ps, k) == Some(ps[i].value)
  {
    if i > 0 {
      FirstField(ps[1..], k, i - 1);
    }
  }

  /** A request the page sends to the server. */
  datatype Request = Save(id: string, body: seq<Part>) | Delete(id: string)

  /** `handleSave`'s body: a form-data object filled entry by entry, the resume appended last. */
  method BuildSaveBody(f: Form, resume: Option<Upload>) returns (data: seq<Part>)
    ensures data == SavePayload(f, resume)
  {
    var entries := Entries(f);
    data := [];
    var i := 0;
    while i < |entries|
      invariant 0 <= i <= |entries|
      invariant data == FieldsOf(entries[..i])
    {
      assert entries[..i + 1] == entries[..i] + [entries[i]];
      FieldsOfAppend(entries[..i], [entries[i]]);
      data := data + [Field(entries[i].0, entries[i].1)];
      i := i + 1;
    }
    assert entries[..i] == entries;
    if resume.Some? {
      data := data + [File("resume", resume.value)];
    }
  }

  lemma {:induction false} FieldsOfAppend(a: seq<(string, string)>, b: seq<(string, string)>)
    ensures FieldsOf(a + b) == FieldsOf(a) + FieldsOf(b)
  {
    if a == [] {
      assert a + b == b;
    } else {
      assert (a + b)[1..] == a[1..] + b;
      FieldsOfAppend(a[1..], b);
    }
  }

  /** The page's state: edit mode, the chosen resume, the form, and the requests sent so far. */
  class DetailsPage {
    var isEditing: bool
    var resumeFile: Option<Upload>
    var form: Form
    var requests: seq<Request>

    constructor ()
      ensures !isEditing && resumeFile == None && form == BlankForm && requests == []
    {
      isEditing := false;
      resumeFile := None;
      form := BlankForm;
      requests := [];
    }

    /** The effect run when the job arrives: while it is missing, the form stays as it is. */
    method LoadJob(job: Option<JobView>)
      modifies this
      ensures job.Some? ==> form == FormFromJob(job.value)
      ensures job.None? ==> form == old(form)
      ensures isEditing == old(isEditing) && resumeFile == old(resumeFile) && requests == old(requests)
    {
      if job.Some? {
        form := FormFromJob(job.value);
      }
    }

    /** `handleFileChange`: the first chosen file replaces the resume; no file changes nothing. */
    method ChooseFile(files: seq<Upload>)
      modifies this
      ensures files != [] ==> resumeFile == Some(files[0])
      ensures files == [] ==> resumeFile == old(resumeFile)
      ensures isEditing == old(isEditing) && form == old(form) && requests == old(requests)
    {
      if files != [] {
        resumeFile := Some(files[0]);
      }
    }

    /** `handleSave`: one update request whose body is the whole form and the chosen resume. */
    method SaveForm(id: string)
      modifies this
      ensures requests == old(requests) + [Save(id, SavePayload(old(form), old(resumeFile)))]
      ensures isEditing == old(isEditing) && resumeFile == old(resumeFile) && form == old(form)
    {
      var data := BuildSaveBody(form, resumeFile);
      requests := requests + [Save(id, data)];
    }

    /** The save's success callback: leave edit mode and forget the chosen file. */
    method SaveSucceeded()
      modifies this
      ensures !isEditing && resumeFile == None
      ensures form == old(form) && requests == old(requests)
    {
      isEditing := false;
      resumeFile := None;
    }

    /** `handleDelete`: a delete request only when the user confirms the dialog. */
    method DeleteJob(id: string, confirmed: bool)
      modifies this
      ensures confirmed ==> requests == old(requests) + [Delete(id)]
      ensures !confirmed ==> requests == old(requests)
      ensures isEditing == old(isEditing) && resumeFile == old(resumeFile) && form == old(form)
    {
      if confirmed {
        requests := requests + [Delete(id)];
      }
    }
  }

  /**
   * Saving right after a job loads sends that job's own company, title, status and priority,
   * and its ISO applied date as its `YYYY-MM-DD` part.
   */
  lemma LoadedFormSaved(job: JobView, resume: Option<Upload>)
    requires job.appliedDate.Some? && IsoShaped(job.appliedDate.value.iso)
    ensures var ps := SavePayload(FormFromJob(job), resume);
      && FieldValue(ps, "company") == Some(job.company)
      && FieldValue(ps, "jobTitle") == Some(job.jobTitle)
      && FieldValue(ps, "status") == Some(job.status)
      && FieldValue(ps, "priority") == Some(job.priority)
      && FieldValue(ps, "appliedDate") == Some(job.appliedDate.value.iso[..10])
  {
    SaveRoundTrip(FormFromJob(job), resume);
    DateInputOfIso(job.appliedDate.value);
  }
}
