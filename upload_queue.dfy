/**
 * The client upload queue of src/app/admin/photos/upload/page.tsx: each
 * dropped file is an entry with a status, and "Upload All" sends the
 * entries one after another. The server's answer to each upload is a
 * parameter.
 */
module UploadQueue {
  import opened Wrappers
  import opened Storage
  import UploadRoute

  datatype Status = Pending | Uploading | Success | Error

  datatype Entry = Entry(file: FileInfo, progress: nat, status: Status, errorMessage: Option<string>)

  /** How one POST to the upload endpoint ends: ok, or the message of the thrown error. */
  datatype Outcome = Delivered | Failed(message: string)

  /** `onDrop`: the accepted files are appended, each pending with progress 0. */
  function OnDrop(files: seq<Entry>, accepted: seq<FileInfo>): (r: seq<Entry>)
    ensures |r| == |files| + |accepted| && r[..|files|] == files
    ensures forall k :: 0 <= k < |accepted| ==>
              r[|files| + k] == Entry(accepted[k], 0, Pending, None)
  {
    files + seq(|accepted|, k requires 0 <= k < |accepted| => Entry(accepted[k], 0, Pending, None))
  }

  /** `prev.map((f, i) => i === index ? g(f) : f)`: an index out of range changes nothing. */
  function UpdateAt(files: seq<Entry>, index: nat, e: Entry): (r: seq<Entry>)
    ensures |r| == |files|
    ensures index < |files| ==> r[index] == e
    ensures forall k :: 0 <= k < |files| && k != index ==> r[k] == files[k]
  {
    if index < |files| then files[index := e] else files
  }

  /** The entry after its upload ends. */
  function Finish(e: Entry, outcome: Outcome): (r: Entry)
    ensures r.file == e.file
    ensures outcome.Delivered? ==> r.status == Success && r.progress == 100
    ensures outcome.Failed? ==> r.status == Error && r.errorMessage == Some(outcome.message) && r.progress == e.progress
  {
    match outcome
    case Delivered => e.(status := Success, progress := 100)
    case Failed(msg) => e.(status := Error, errorMessage := Some(msg))
  }

  /** `file.name.split('.')[0]`: the name up to its first '.'. */
  function TitleFromName(name: string): (t: string)
    ensures |t| <= |name| && t == name[..|t|] && '.' !in t
    ensures |t| < |name| ==> name[|t|] == '.'
  {
    if name == [] || name[0] == '.' then "" else [name[0]] + TitleFromName(name[1..])
  }

  /** The form `uploadFile` posts: only file and title; the page sends no flags. */
  function SentForm(file: FileInfo): (f: UploadRoute.UploadForm)
    ensures f.file == UploadRoute.Attached(file) && f.title == Some(TitleFromName(file.name))
    ensures f.isFeatured.None? && f.isBlackWhite.None? && f.description.None? && f.categoryId.None?
  {
    UploadRoute.UploadForm(UploadRoute.Attached(file), Some(TitleFromName(file.name)), None, None, None, None)
  }

  /** Every photo uploaded from this page is recorded as colour and not featured. */
  lemma PageUploadsAreColour(file: FileInfo, svc: UploadRoute.Services)
    requires UploadRoute.AllStepsSucceed(SentForm(file), svc)
    ensures var h := UploadRoute.Post(SentForm(file), svc);
            h.response.body.PhotoBody? &&
            !h.response.body.photo.isBlackWhite && h.response.body.photo.metadata.colorMode == "color" &&
            !h.response.body.photo.isFeatured
  {
    UploadRoute.SuccessfulUploadRecord(SentForm(file), svc);
  }

  /** A file whose name starts with '.' gets an empty title, which the route rejects. */
  lemma LeadingDotNameIsRejected(file: FileInfo, svc: UploadRoute.Services)
    requires file.name != [] && file.name[0] == '.'
    ensures UploadRoute.Post(SentForm(file), svc).response.status == 400
  {
  }

  /** The entries once every index below `k` that was not already a success has been sent. */
  function SettledUpTo(snapshot: seq<Entry>, outcomes: seq<Outcome>, k: nat): (r: seq<Entry>)
    requires |outcomes| == |snapshot| && k <= |snapshot|
    ensures |r| == |snapshot|
    ensures forall i :: 0 <= i < |r| ==>
              r[i] == if i < k && snapshot[i].status != Success then Finish(snapshot[i], outcomes[i]) else snapshot[i]
  {
    seq(|snapshot|, i requires 0 <= i < |snapshot| =>
      if i < k && snapshot[i].status != Success then Finish(snapshot[i], outcomes[i]) else snapshot[i])
  }

  /** The indices below `k` that are sent, in order. */
  function SentUpTo(snapshot: seq<Entry>, k: nat): (r: seq<nat>)
    requires k <= |snapshot|
    ensures forall j :: 0 <= j < |r| ==> r[j] < k && snapshot[r[j]].status != Success
    ensures forall j, l :: 0 <= j < l < |r| ==> r[j] < r[l]
    ensures forall i :: 0 <= i < k && snapshot[i].status != Success ==> i in r
  {
    if k == 0 then []
    else
      var prev := SentUpTo(snapshot, k - 1);
      if snapshot[k - 1].status != Success then prev + [k - 1] else prev
  }

  predicate AllSuccess(files: seq<Entry>) {
    forall k :: 0 <= k < |files| ==> files[k].status == Success
  }

  /** The redirect test as written: it reads the list captured when the button was pressed. */
  predicate StaleRedirect(snapshot: seq<Entry>) {
    AllSuccess(snapshot) && |snapshot| > 0
  }

  /** The evidently intended test: every entry is a success once the loop is over. */
  predicate IntendedRedirect(after: seq<Entry>) {
    AllSuccess(after) && |after| > 0
  }

  class UploadPage {
    var files: seq<Entry>
    var uploading: bool

    constructor ()
      ensures files == [] && !uploading
    {
      files := [];
      uploading := false;
    }

    method Drop(accepted: seq<FileInfo>)
      modifies this
      ensures files == OnDrop(old(files), accepted) && uploading == old(uploading)
    {
      files := OnDrop(files, accepted);
    }

    /**
     * `uploadFile(file, index)`: the entry at `index` becomes uploading,
     * then success or error. Returns the form that was posted.
     */
    method UploadFile(file: FileInfo, index: nat, outcome: Outcome) returns (sent: UploadRoute.UploadForm)
      modifies this
      ensures sent == SentForm(file)
      ensures index < |old(files)| ==>
                files == old(files)[index := Finish(old(files)[index].(status := Uploading), outcome)]
      ensures index >= |old(files)| ==> files == old(files)
      ensures uploading == old(uploading)
    {
      sent := SentForm(file);
      if index < |files| {
        files := UpdateAt(files, index, files[index].(status := Uploading));
        files := UpdateAt(files, index, Finish(files[index], outcome));
      }
    }

    /**
     * "Upload All". `outcomes[i]` is how the upload of entry i would end.
     * Returns the indices sent, in order, and whether the redirect to the
     * photo list is scheduled.
     */
    method HandleUploadAll(outcomes: seq<Outcome>) returns (sentIndices: seq<nat>, redirect: bool)
      requires |outcomes| == |files|
      modifies this
      ensures files == SettledUpTo(old(files), outcomes, |old(files)|)
      ensures sentIndices == SentUpTo(old(files), |old(files)|)
      ensures redirect == StaleRedirect(old(files))
      ensures !uploading
    {
      var snapshot := files;
      uploading := true;
      sentIndices := [];
      var i := 0;
      while i < |snapshot|
        invariant 0 <= i <= |snapshot|
        invariant files == SettledUpTo(snapshot, outcomes, i)
        invariant sentIndices == SentUpTo(snapshot, i)
        invariant uploading
      {
        if snapshot[i].status != Success {
          ghost var before := files;
          var _ := UploadFile(snapshot[i].file, i, outcomes[i]);
          assert files == before[i := Finish(before[i].(status := Uploading), outcomes[i])];
          sentIndices := sentIndices + [i];
          SettleSent(snapshot, outcomes, i);
        } else {
          SettleSkipped(snapshot, outcomes, i);
        }
        i := i + 1;
      }
      uploading := false;
      redirect := AllSuccess(snapshot) && |snapshot| > 0;
    }

    /** `removeFile`: exactly the entry at `index` goes, the rest keep their order. */
    method RemoveFile(index: nat)
      requires index < |files|
      modifies this
      ensures files == old(files)[..index] + old(files)[index + 1..]
      ensures |files| == |old(files)| - 1 && uploading == old(uploading)
    {
      files := files[..index] + files[index + 1..];
    }
  }

  /** Sending entry `i` settles it: the loop's state after one more step. */
  lemma SettleSent(snapshot: seq<Entry>, outcomes: seq<Outcome>, i: nat)
    requires |outcomes| == |snapshot| && i < |snapshot| && snapshot[i].status != Success
    ensures var before := SettledUpTo(snapshot, outcomes, i);
            before[i := Finish(before[i].(status := Uploading), outcomes[i])] == SettledUpTo(snapshot, outcomes, i + 1)
  {
    var before := SettledUpTo(snapshot, outcomes, i);
    var after := SettledUpTo(snapshot, outcomes, i + 1);
    assert Finish(before[i].(status := Uploading), outcomes[i]) == Finish(snapshot[i], outcomes[i]);
    assert before[i := Finish(snapshot[i], outcomes[i])] == after;
  }

  /** Skipping a successful entry leaves the loop's state as the next step expects. */
  lemma SettleSkipped(snapshot: seq<Entry>, outcomes: seq<Outcome>, i: nat)
    requires |outcomes| == |snapshot| && i < |snapshot| && snapshot[i].status == Success
    ensures SettledUpTo(snapshot, outcomes, i) == SettledUpTo(snapshot, outcomes, i + 1)
  {
  }

  /** Entries already a success are not sent again. */
  lemma SuccessfulEntriesAreSkipped(snapshot: seq<Entry>, outcomes: seq<Outcome>, i: nat)
    requires |outcomes| == |snapshot| && i < |snapshot| && snapshot[i].status == Success
    ensures i !in SentUpTo(snapshot, |snapshot|)
    ensures SettledUpTo(snapshot, outcomes, |snapshot|)[i] == snapshot[i]
  {
  }

  /** With the intended test, the redirect happens exactly when every upload that is sent succeeds. */
  lemma {:induction false} IntendedRedirectIffAllSentSucceed(snapshot: seq<Entry>, outcomes: seq<Outcome>)
    requires |outcomes| == |snapshot|
    ensures IntendedRedirect(SettledUpTo(snapshot, outcomes, |snapshot|)) <==>
              |snapshot| > 0 && forall i :: 0 <= i < |snapshot| && snapshot[i].status != Success ==> outcomes[i].Delivered?
  {
    var after := SettledUpTo(snapshot, outcomes, |snapshot|);
    if |snapshot| > 0 && forall i :: 0 <= i < |snapshot| && snapshot[i].status != Success ==> outcomes[i].Delivered? {
      forall k | 0 <= k < |after| ensures after[k].status == Success {
        if snapshot[k].status != Success {
          assert outcomes[k].Delivered?;
        }
      }
    }
    if IntendedRedirect(after) {
      forall i | 0 <= i < |snapshot| && snapshot[i].status != Success ensures outcomes[i].Delivered? {
        assert after[i] == Finish(snapshot[i], outcomes[i]);
        assert after[i].status == Success;
      }
    }
  }

  /**
   * As written, one file dropped and uploaded successfully does not
   * redirect: the check reads the list captured before the upload.
   */
  lemma StaleCheckMissesRedirect(file: FileInfo)
    ensures var snapshot := [Entry(file, 0, Pending, None)];
            var after := SettledUpTo(snapshot, [Delivered], 1);
            IntendedRedirect(after) && !StaleRedirect(snapshot)
  {
    var snapshot := [Entry(file, 0, Pending, None)];
    var after := SettledUpTo(snapshot, [Delivered], 1);
    assert after[0].status == Success;
    assert snapshot[0].status == Pending;
  }
}
