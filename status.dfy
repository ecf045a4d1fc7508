/** The status half of the monitor: `checkstatus` renders the latest CPU and
    memory figures and the ping result into one status message, and keeps
    that single message up to date by editing it in place once it exists. */
module Status {
  import opened Wrappers
  import ProgressBar

  /** The reachability line when the ping answers. */
  const OnlineLine: string := "\U{2705} Your VPS is online."

  /** The reachability line when it does not. */
  const OfflineLine: string := "\U{26A0}\U{FE0F} **ALERT:** Your VPS appears to be offline! \U{26A0}\U{FE0F}"

  /** The parts of the status message that change from cycle to cycle. */
  datatype Report = Report(time: string, cpuBar: string, memoryBar: string, reachability: string)

  /** The content of the status message for one measured cycle: the time,
      a 20-cell bar per figure and the reachability line, which is the
      online line exactly when the ping answered and the offline line
      exactly when it did not. `format` is the two-decimal rendering of a
      percentage. */
  function Present(cpu: real, memory: real, online: bool, time: string, format: real -> string): (r: Report)
    ensures r.time == time
    ensures r.reachability == OnlineLine <==> online
    ensures r.reachability == OfflineLine <==> !online
  {
    Report(time,
           ProgressBar.Render(cpu, format(cpu), ProgressBar.DefaultLength),
           ProgressBar.Render(memory, format(memory), ProgressBar.DefaultLength),
           if online then OnlineLine else OfflineLine)
  }

  /** The status channel as the monitor sees it. At most one status message
      is ever created; once it exists the handle names it. */
  class StatusBoard {
    /** `prev_stat_message`: the position in `posts` of the status message, if any. */
    var handle: Option<nat>
    /** The messages the monitor has created in the status channel, each with its current content. */
    var posts: seq<Report>
    /** The number of edits made to the status message. */
    var edits: nat

    ghost predicate Valid()
      reads this
    {
      && |posts| <= 1
      && (handle.None? <==> posts == [])
      && (handle.Some? ==> handle.value == |posts| - 1)
    }

    constructor ()
      ensures Valid() && handle == None && posts == [] && edits == 0
    {
      handle := None;
      posts := [];
      edits := 0;
    }

    /** One status cycle. Without figures nothing happens. With figures the
        new content is created as the status message when there is none yet
        (the handle is then set) and is edited into it otherwise (the handle
        stays). */
    method CheckStatus(usage: Option<(real, real)>, online: bool, time: string, format: real -> string)
      requires Valid()
      modifies this
      ensures Valid()
      ensures usage.None? ==> handle == old(handle) && posts == old(posts) && edits == old(edits)
      ensures usage.Some? ==> posts == [Present(usage.value.0, usage.value.1, online, time, format)]
      ensures usage.Some? && old(handle).None? ==> handle == Some(0) && edits == old(edits)
      ensures usage.Some? && old(handle).Some? ==> handle == old(handle) && edits == old(edits) + 1
    {
      match usage {
        case None =>
        case Some((cpu, memory)) =>
          var report := Present(cpu, memory, online, time, format);
          if handle.Some? {
            posts := posts[handle.value := report];
            edits := edits + 1;
          } else {
            posts := posts + [report];
            handle := Some(|posts| - 1);
          }
      }
    }
  }

  /** What one firing of the status timer is given: the figures (None when
      they could not be collected), the ping result and the time. */
  datatype Firing = Firing(usage: Option<(real, real)>, online: bool, time: string)

  /** The number of firings that produced figures. */
  function Measured(firings: seq<Firing>): nat {
    if firings == [] then 0
    else Measured(firings[..|firings| - 1]) + if firings[|firings| - 1].usage.Some? then 1 else 0
  }

  /** The content of the status message after `firings`: that of the last
      firing with figures, or None when none had any. */
  function LastShown(firings: seq<Firing>, format: real -> string): Option<Report> {
    if firings == [] then None
    else
      var f := firings[|firings| - 1];
      match f.usage
      case Some((cpu, memory)) => Some(Present(cpu, memory, f.online, f.time, format))
      case None => LastShown(firings[..|firings| - 1], format)
  }

  /** One more firing adds one measured cycle exactly when it has figures,
      and then its content is the one shown. */
  lemma FiringStep(firings: seq<Firing>, k: nat, format: real -> string)
    requires k < |firings|
    ensures Measured(firings[..k + 1]) == Measured(firings[..k]) + if firings[k].usage.Some? then 1 else 0
    ensures LastShown(firings[..k + 1], format)
            == match firings[k].usage
               case Some((cpu, memory)) => Some(Present(cpu, memory, firings[k].online, firings[k].time, format))
               case None => LastShown(firings[..k], format)
  {
    assert firings[..k + 1][..k] == firings[..k];
  }

  /** The status timer firing over `firings`, from a fresh start: one
      message is created at the first firing with figures and every later
      firing with figures edits it, so at most one message is ever created,
      and it shows the last figures collected. */
  method StatusFirings(firings: seq<Firing>, format: real -> string)
      returns (created: nat, edited: nat, shown: Option<Report>)
    ensures created == if Measured(firings) > 0 then 1 else 0
    ensures created + edited == Measured(firings)
    ensures shown == LastShown(firings, format)
  {
    var board := new StatusBoard();
    var k := 0;
    while k < |firings|
      invariant 0 <= k <= |firings|
      invariant board.Valid()
      invariant |board.posts| == if Measured(firings[..k]) > 0 then 1 else 0
      invariant |board.posts| + board.edits == Measured(firings[..k])
      invariant (if board.posts == [] then None else Some(board.posts[0])) == LastShown(firings[..k], format)
    {
      FiringStep(firings, k, format);
      board.CheckStatus(firings[k].usage, firings[k].online, firings[k].time, format);
      k := k + 1;
    }
    assert firings[..k] == firings;
    created, edited := |board.posts|, board.edits;
    shown := if board.posts == [] then None else Some(board.posts[0]);
  }
}
