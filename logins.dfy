/** The login-alert half of the monitor: `get_login_events` keeps the lines
    of the remote `auth.log` tail that are not the bot's own logins, and
    `monitor_logins` alerts once per line it has never reported before,
    remembering every reported line in the `reported_logins` ledger. */
module Logins {
  import opened Wrappers
  import opened Text

  /** Python truthiness of the bot's own IP: present and non-empty. */
  predicate Truthy(ip: Option<string>) {
    ip.Some? && ip.value != []
  }

  /** The comprehension's test: the line does not mention the SSH user and,
      when the bot's IP is truthy, does not mention that IP either. */
  predicate KeepLine(line: string, user: string, botIp: Option<string>) {
    !Contains(line, user) && (if Truthy(botIp) then !Contains(line, botIp.value) else true)
  }

  /** `small` is `big` with some elements left out, the rest in their order. */
  ghost predicate IsSubsequence(small: seq<string>, big: seq<string>)
    decreases |big|
  {
    if small == [] then true
    else if big == [] then false
    else if small[0] == big[0] then IsSubsequence(small[1..], big[1..])
    else IsSubsequence(small, big[1..])
  }

  /** The filter of `get_login_events`: the kept lines, in their order, each
      as often as it occurs. No kept line names the user, none names a
      truthy bot IP, and every line that passes the test is kept. */
  function FilterLogins(lines: seq<string>, user: string, botIp: Option<string>): (r: seq<string>)
    ensures IsSubsequence(r, lines)
    ensures forall i :: 0 <= i < |r| ==> !Contains(r[i], user)
    ensures Truthy(botIp) ==> forall i :: 0 <= i < |r| ==> !Contains(r[i], botIp.value)
    ensures forall x :: multiset(r)[x] == if KeepLine(x, user, botIp) then multiset(lines)[x] else 0
  {
    if lines == [] then []
    else
      var rest := FilterLogins(lines[1..], user, botIp);
      assert lines == [lines[0]] + lines[1..];
      if KeepLine(lines[0], user, botIp) then [lines[0]] + rest else rest
  }

  /** `get_login_events`: no events when the remote command could not be run,
      otherwise the filtered lines of its stripped output. */
  function GetLoginEvents(stdout: Option<string>, user: string, botIp: Option<string>): (r: seq<string>)
    ensures stdout.None? ==> r == []
    ensures forall i :: 0 <= i < |r| ==> !Contains(r[i], user)
  {
    match stdout
    case None => []
    case Some(output) => FilterLogins(SplitLines(Strip(output)), user, botIp)
  }

  /** An empty or absent bot IP disables only the IP test: the user test still applies. */
  lemma FalsyIpKeepsOnlyUserTest(lines: seq<string>, user: string, botIp: Option<string>)
    requires !Truthy(botIp)
    ensures FilterLogins(lines, user, botIp) == FilterLogins(lines, user, None)
  {
  }

  /** An empty SSH user is in every line, so every line is dropped. */
  lemma EmptyUserDropsEveryLine(lines: seq<string>, botIp: Option<string>)
    ensures FilterLogins(lines, [], botIp) == []
  {
    var r := FilterLogins(lines, [], botIp);
    if r != [] {
      ContainsEmpty(r[0]);
      assert false;
    }
  }

  /** The elements of a sequence, as a set. */
  function Elems(s: seq<string>): (r: set<string>)
    ensures forall x :: x in r <==> x in s
  {
    set x | x in s
  }

  predicate NoDuplicates(s: seq<string>) {
    forall i, j :: 0 <= i < j < |s| ==> s[i] != s[j]
  }

  /** The alerts one pass of the `monitor_logins` loop sends for `events` when
      the ledger already holds `seen`: each event not yet in the ledger, at
      its first occurrence, in order. */
  function NewAlerts(seen: set<string>, events: seq<string>): seq<string>
    decreases |events|
  {
    if events == [] then []
    else if events[0] in seen then NewAlerts(seen, events[1..])
    else [events[0]] + NewAlerts(seen + {events[0]}, events[1..])
  }

  /** One step of the loop: the alerts for a batch are those of its first
      event followed by those of the rest against the grown ledger. */
  lemma NewAlertsStep(seen: set<string>, events: seq<string>, i: nat)
    requires i < |events|
    ensures NewAlerts(seen, events[i..])
            == (if events[i] in seen then [] else [events[i]]) + NewAlerts(seen + {events[i]}, events[i + 1..])
  {
    assert events[i..][1..] == events[i + 1..];
    if events[i] in seen {
      assert seen + {events[i]} == seen;
    }
  }

  /** An event is alerted exactly when it is in the batch and not in the ledger. */
  lemma {:induction false} AlertedIffNew(seen: set<string>, events: seq<string>, x: string)
    ensures x in NewAlerts(seen, events) <==> x in events && x !in seen
    decreases |events|
  {
    if events != [] {
      assert events == [events[0]] + events[1..];
      if events[0] in seen {
        AlertedIffNew(seen, events[1..], x);
      } else {
        AlertedIffNew(seen + {events[0]}, events[1..], x);
      }
    }
  }

  /** No event is alerted twice, even when it repeats within the batch. */
  lemma {:induction false} AlertsDistinct(seen: set<string>, events: seq<string>)
    ensures NoDuplicates(NewAlerts(seen, events))
    decreases |events|
  {
    if events != [] {
      if events[0] in seen {
        AlertsDistinct(seen, events[1..]);
      } else {
        var rest := NewAlerts(seen + {events[0]}, events[1..]);
        AlertsDistinct(seen + {events[0]}, events[1..]);
        AlertedIffNew(seen + {events[0]}, events[1..], events[0]);
        assert events[0] !in rest;
      }
    }
  }

  /** Alerts go out in the order in which their events first occur in the batch. */
  lemma {:induction false} AlertsInFirstOccurrenceOrder(seen: set<string>, events: seq<string>)
    ensures forall x :: x in NewAlerts(seen, events) ==> x in events
    ensures forall i, j :: 0 <= i < j < |NewAlerts(seen, events)| ==>
              IndexOf(events, NewAlerts(seen, events)[i]) < IndexOf(events, NewAlerts(seen, events)[j])
    decreases |events|
  {
    forall x | x in NewAlerts(seen, events) ensures x in events {
      AlertedIffNew(seen, events, x);
    }
    if events != [] {
      var tail := events[1..];
      var seen' := if events[0] in seen then seen else seen + {events[0]};
      var rest := NewAlerts(seen', tail);
      AlertsInFirstOccurrenceOrder(seen', tail);
      forall x | x in rest ensures x in events && IndexOf(events, x) == 1 + IndexOf(tail, x) {
        AlertedIffNew(seen', tail, x);
        IndexOfInTail(events, x);
      }
      var r := NewAlerts(seen, events);
      if events[0] !in seen {
        assert r == [events[0]] + rest;
        forall i, j | 0 <= i < j < |r|
          ensures IndexOf(events, r[i]) < IndexOf(events, r[j])
        {
          assert r[j] == rest[j - 1] && r[j] in rest;
          if i > 0 {
            assert r[i] == rest[i - 1] && r[i] in rest;
          }
        }
      }
    }
  }

  /** Feeding a batch again once its events are in the ledger alerts nothing. */
  lemma RepeatAlertsNothing(seen: set<string>, events: seq<string>)
    ensures NewAlerts(seen + Elems(events), events) == []
  {
    var r := NewAlerts(seen + Elems(events), events);
    if r != [] {
      AlertedIffNew(seen + Elems(events), events, r[0]);
      assert false;
    }
  }

  /** The ledger after one more event of the batch. */
  lemma ElemsStep(events: seq<string>, i: nat)
    requires i < |events|
    ensures Elems(events[..i + 1]) == Elems(events[..i]) + {events[i]}
  {
    assert events[..i + 1] == events[..i] + [events[i]];
  }

  /** Sending an event that was never sent keeps the sent alerts distinct. */
  lemma SendNew(sent: seq<string>, event: string)
    requires NoDuplicates(sent) && event !in Elems(sent)
    ensures NoDuplicates(sent + [event]) && Elems(sent + [event]) == Elems(sent) + {event}
  {
  }

  /** The dedup ledger of `monitor_logins` and the alerts it has sent.
      Every reported line was alerted exactly once: the ledger is the set of
      alerted lines and no line was alerted twice. */
  class LoginMonitor {
    /** `reported_logins` */
    var reported: set<string>
    /** The alerts sent to the logins channel, oldest first. */
    var sent: seq<string>

    ghost predicate Valid()
      reads this
    {
      reported == Elems(sent) && NoDuplicates(sent)
    }

    constructor ()
      ensures Valid() && reported == {} && sent == []
    {
      reported := {};
      sent := [];
    }

    /** One pass of the loop: each event not yet in the ledger is added to it
        and alerted. The ledger grows by the batch; the alerts sent are
        exactly `NewAlerts` of the old ledger. */
    method MonitorLogins(events: seq<string>)
      requires Valid()
      modifies this
      ensures Valid()
      ensures reported == old(reported) + Elems(events)
      ensures sent == old(sent) + NewAlerts(old(reported), events)
    {
      var i := 0;
      while i < |events|
        invariant 0 <= i <= |events|
        invariant Valid()
        invariant reported == old(reported) + Elems(events[..i])
        invariant sent + NewAlerts(reported, events[i..]) == old(sent) + NewAlerts(old(reported), events)
      {
        var event := events[i];
        NewAlertsStep(reported, events, i);
        ElemsStep(events, i);
        if event !in reported {
          SendNew(sent, event);
          ghost var rest := NewAlerts(reported + {event}, events[i + 1..]);
          assert (sent + [event]) + rest == sent + ([event] + rest);
          reported := reported + {event};
          sent := sent + [event];
        }
        i := i + 1;
      }
      assert events[..i] == events;
    }
  }

  /** The login timer firing `n` times on the same batch, starting from a
      fresh monitor: the alerts are those of the first firing, one per
      distinct event, and the later firings send nothing. */
  method RepeatedFirings(events: seq<string>, n: nat) returns (alerts: seq<string>)
    requires n >= 1
    ensures alerts == NewAlerts({}, events)
    ensures NoDuplicates(alerts)
    ensures forall x :: x in alerts <==> x in events
  {
    var monitor := new LoginMonitor();
    monitor.MonitorLogins(events);
    var k := 1;
    while k < n
      invariant 1 <= k <= n
      invariant monitor.Valid()
      invariant monitor.reported == Elems(events)
      invariant monitor.sent == NewAlerts({}, events)
    {
      monitor.MonitorLogins(events);
      RepeatAlertsNothing({}, events);
      assert {} + Elems(events) == Elems(events);
      k := k + 1;
    }
    alerts := monitor.sent;
    AlertsDistinct({}, events);
    forall x ensures x in alerts <==> x in events {
      AlertedIffNew({}, events, x);
    }
  }
}
