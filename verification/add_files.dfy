/** The request plan of `addFiles` (server/models/client.js): tag coercion,
    one add request per uploaded torrent file, and the rule that only the last
    of them reports back to the caller. */
module AddFiles {
  import opened Wrappers
  import Text

  /** `req.body.tags`: an array, a string, or missing. */
  datatype TagsInput = TagArray(tags: seq<string>) | TagText(text: string) | TagsMissing

  /** An uploaded torrent file, by its original name. */
  datatype Upload = Upload(originalName: string)

  datatype AddStep =
      /** The fire-and-forget request that creates the destination. */
    | CreateDirectory(path: string)
      /** One file's own add request; `reportsToCaller` is set on the request
          whose completion refreshes the torrent list and calls the caller's
          callback. */
    | AddFile(file: Upload, path: string, isBasePath: bool, start: bool, tags: seq<string>,
              reportsToCaller: bool)
      /** `settings.set(user, {id: 'startTorrentsOnLoad', data: start})`. */
    | PersistStartOnLoad(start: bool)

  /** `Array.isArray(tags) ? tags : tags.split(',')`; None when `tags` is
      missing and `split` throws. */
  function CoerceTags(tags: TagsInput): (r: Option<seq<string>>)
    ensures r.None? <==> tags.TagsMissing?
    ensures tags.TagArray? ==> r == Some(tags.tags)
    ensures tags.TagText? ==>
      Text.Join(r.value, ',') == tags.text &&
      forall i :: 0 <= i < |r.value| ==> ',' !in r.value[i]
  {
    match tags
    case TagArray(ts) => Some(ts)
    case TagText(s) =>
      Text.JoinSplit(s, ',');
      Some(Text.Split(s, ','))
    case TagsMissing => None
  }

  /** The steps of `addFiles` in the order they are issued, or None when tag
      coercion throws before any request is made. */
  function Plan(files: seq<Upload>, destination: string, isBasePath: bool, start: bool, tags: TagsInput)
    : (plan: Option<seq<AddStep>>)
    ensures plan.None? <==> tags.TagsMissing?
    ensures plan.Some? ==> |plan.value| == |files| + 2
    ensures plan.Some? ==> plan.value[0] == CreateDirectory(destination)
    ensures plan.Some? ==> plan.value[|files| + 1] == PersistStartOnLoad(start)
    ensures plan.Some? ==> forall i :: 0 <= i < |files| ==>
      var step := plan.value[i + 1];
      step.AddFile? && step.file == files[i] && step.path == destination &&
      step.isBasePath == isBasePath && step.start == start &&
      step.tags == CoerceTags(tags).value &&
      (step.reportsToCaller <==> i == |files| - 1)
  {
    match CoerceTags(tags)
    case None => None
    case Some(ts) =>
      var adds := seq(|files|, i requires 0 <= i < |files| =>
        AddFile(files[i], destination, isBasePath, start, ts, i == |files| - 1));
      Some([CreateDirectory(destination)] + adds + [PersistStartOnLoad(start)])
  }

  /** The number of steps that report to the caller. */
  function Reporting(steps: seq<AddStep>): nat
  {
    if |steps| == 0 then 0
    else (if steps[0].AddFile? && steps[0].reportsToCaller then 1 else 0) + Reporting(steps[1..])
  }

  lemma {:induction false} ReportingAppend(a: seq<AddStep>, b: seq<AddStep>)
    ensures Reporting(a + b) == Reporting(a) + Reporting(b)
  {
    if |a| == 0 {
      assert a + b == b;
    } else {
      ReportingAppend(a[1..], b);
      assert (a + b)[1..] == a[1..] + b;
    }
  }

  /** The caller's callback is attached to exactly one request when there is
      at least one file, and to none when the file list is empty. */
  lemma {:induction false} CallerReportedOnceIffFiles(files: seq<Upload>, destination: string, isBasePath: bool,
                                                      start: bool, tags: TagsInput)
    requires !tags.TagsMissing?
    ensures Reporting(Plan(files, destination, isBasePath, start, tags).value) == if |files| > 0 then 1 else 0
  {
    var ts := CoerceTags(tags).value;
    var plan := Plan(files, destination, isBasePath, start, tags).value;
    var adds := plan[1..|files| + 1];
    assert plan == [plan[0]] + adds + [plan[|files| + 1]];
    ReportingAppend([plan[0]] + adds, [plan[|files| + 1]]);
    ReportingAppend([plan[0]], adds);
    assert Reporting([plan[|files| + 1]]) == 0;
    assert Reporting([plan[0]]) == 0;
    if |files| > 0 {
      var n := |files| - 1;
      assert adds == adds[..n] + [adds[n]];
      ReportingAppend(adds[..n], [adds[n]]);
      NoneReporting(adds[..n]);
    } else {
      assert adds == [];
    }
  }

  lemma {:induction false} NoneReporting(steps: seq<AddStep>)
    requires forall i :: 0 <= i < |steps| ==> !(steps[i].AddFile? && steps[i].reportsToCaller)
    ensures Reporting(steps) == 0
  {
    if |steps| > 0 {
      NoneReporting(steps[1..]);
    }
  }
}
