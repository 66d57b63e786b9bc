/** The continuation chain of `moveTorrents` (server/models/client.js),
    written out as the list of steps it wires up, in the order each one is
    started by the completion of the one before. */
module MoveTorrents {
  import opened Wrappers

  /** The request body of a move. */
  datatype MoveRequest = MoveRequest(
    destination: string,
    isBasePath: bool,
    hashes: seq<string>,
    filenames: seq<string>,
    moveFiles: bool,
    sources: seq<string>)

  datatype Step =
      /** The first request: stop the torrents and set their download path. */
    | StopAndSetPath(hashes: seq<string>, destination: string, isBasePath: bool)
      /** The on-disk move of the torrents' files. */
    | MoveFiles(filenames: seq<string>, sources: seq<string>, destination: string)
    | CheckHash(hashes: seq<string>)
    | StartTorrents(hashes: seq<string>)
      /** The caller's callback, given the last request's completion. */
    | ReportToCaller

  /** Position of each kind of step in the chain. */
  function Rank(s: Step): nat
  {
    match s
    case StopAndSetPath(_, _, _) => 0
    case MoveFiles(_, _, _) => 1
    case CheckHash(_) => 2
    case StartTorrents(_) => 3
    case ReportToCaller => 4
  }

  /** `hashes.filter(hash => !getTorrent(hash).status.includes(stopped))`,
      read from the cached statuses before anything is sent. None when a hash
      has no cached torrent: reading its `status` throws. */
  function HashesToRestart(hashes: seq<string>, statuses: map<string, seq<string>>, stopped: string)
    : (r: Option<seq<string>>)
    ensures r.Some? <==> forall h :: h in hashes ==> h in statuses
    ensures r.Some? ==> |r.value| <= |hashes|
    ensures r.Some? ==> forall h :: h in r.value <==> h in hashes && stopped !in statuses[h]
  {
    if |hashes| == 0 then Some([])
    else if hashes[0] !in statuses then None
    else
      match HashesToRestart(hashes[1..], statuses, stopped)
      case None => None
      case Some(rest) =>
        assert forall h :: h in hashes <==> h == hashes[0] || h in hashes[1..];
        Some(if stopped in statuses[hashes[0]] then rest else [hashes[0]] + rest)
  }

  /** The steps wired up once the set of torrents to restart is known. */
  function Chain(req: MoveRequest, restart: seq<string>): (steps: seq<Step>)
    ensures |steps| >= 3
    ensures steps[0] == StopAndSetPath(req.hashes, req.destination, req.isBasePath)
    ensures steps[|steps| - 1] == ReportToCaller
    ensures forall i, j :: 0 <= i < j < |steps| ==> Rank(steps[i]) < Rank(steps[j])
    ensures (exists i :: 0 <= i < |steps| && steps[i].MoveFiles?) <==> req.moveFiles
    ensures exists i :: 0 <= i < |steps| && steps[i] == CheckHash(req.hashes)
    ensures (exists i :: 0 <= i < |steps| && steps[i].StartTorrents?) <==> |restart| > 0
    ensures forall i :: 0 <= i < |steps| && steps[i].StartTorrents? ==> steps[i].hashes == restart
    ensures forall i :: 0 <= i < |steps| && steps[i].MoveFiles? ==>
      steps[i] == MoveFiles(req.filenames, req.sources, req.destination)
  {
    var move := if req.moveFiles then [MoveFiles(req.filenames, req.sources, req.destination)] else [];
    var start := if |restart| > 0 then [StartTorrents(restart)] else [];
    var p := [StopAndSetPath(req.hashes, req.destination, req.isBasePath)] + move
      + [CheckHash(req.hashes)] + start + [ReportToCaller];
    assert p[1 + |move|] == CheckHash(req.hashes);
    assert req.moveFiles ==> p[1].MoveFiles?;
    assert |restart| > 0 ==> p[2 + |move|].StartTorrents?;
    p
  }

  /** The chain `moveTorrents(user, data, callback)` wires up, or None when it
      throws before sending anything. The stop/set-path request comes first;
      its completion starts the file move when `moveFiles` is set and the
      hash check otherwise; the file move's completion starts the hash check;
      the hash check's completion restarts the torrents that were running,
      when there are any, and otherwise goes straight to the caller. */
  function Plan(req: MoveRequest, statuses: map<string, seq<string>>, stopped: string)
    : (plan: Option<seq<Step>>)
    ensures plan.Some? <==> HashesToRestart(req.hashes, statuses, stopped).Some?
    ensures plan.Some? ==> plan.value == Chain(req, HashesToRestart(req.hashes, statuses, stopped).value)
  {
    match HashesToRestart(req.hashes, statuses, stopped)
    case None => None
    case Some(restart) => Some(Chain(req, restart))
  }

  /** When none of the moved torrents was stopped, all of them are restarted,
      in the order given. */
  lemma {:induction false} NoneStoppedRestartsAll(hashes: seq<string>, statuses: map<string, seq<string>>, stopped: string)
    requires forall h :: h in hashes ==> h in statuses && stopped !in statuses[h]
    ensures HashesToRestart(hashes, statuses, stopped) == Some(hashes)
  {
    if |hashes| > 0 {
      NoneStoppedRestartsAll(hashes[1..], statuses, stopped);
      assert [hashes[0]] + hashes[1..] == hashes;
    }
  }

  /** When every moved torrent was already stopped, no restart step is
      planned. This is also why the set must be read before the stop step:
      read afterwards, every torrent would look stopped. */
  lemma AllStoppedRestartsNone(req: MoveRequest, statuses: map<string, seq<string>>, stopped: string)
    requires forall h :: h in req.hashes ==> h in statuses && stopped in statuses[h]
    ensures HashesToRestart(req.hashes, statuses, stopped) == Some([])
    ensures var plan := Plan(req, statuses, stopped);
      plan.Some? && forall i :: 0 <= i < |plan.value| ==> !plan.value[i].StartTorrents?
  {
    AllStoppedEmptyRestart(req.hashes, statuses, stopped);
  }

  lemma {:induction false} AllStoppedEmptyRestart(hashes: seq<string>, statuses: map<string, seq<string>>, stopped: string)
    requires forall h :: h in hashes ==> h in statuses && stopped in statuses[h]
    ensures HashesToRestart(hashes, statuses, stopped) == Some([])
  {
    if |hashes| > 0 {
      AllStoppedEmptyRestart(hashes[1..], statuses, stopped);
    }
  }
}
