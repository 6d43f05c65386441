/**
 The service registry of src/lib/fallback.js: a current state per service and a
 bounded history of transitions.
 */
module Fallback {

  datatype State = Healthy | Degraded | Down

  datatype Transition = Transition(state: State, at: int, reason: string)

  datatype Service = Service(state: State, history: seq<Transition>)

  datatype Event = Event(service: string, from: State, to: State, reason: string, at: int)

  const MAX_HISTORY := 100
  const MAX_EVENTS := 1000

  /** Append, and drop the oldest once over the bound. */
  function Push<T>(s: seq<T>, x: T, bound: nat): seq<T> {
    if |s| + 1 > bound then (s + [x])[1..] else s + [x]
  }

  /** The last `n` elements. */
  function Last<T>(s: seq<T>, n: nat): seq<T> {
    if |s| <= n then s else s[|s| - n..]
  }

  /** A bounded buffer shows the end of the complete log. */
  lemma PushIsLast<T>(log: seq<T>, x: T, bound: nat)
    requires bound >= 1
    ensures Push(Last(log, bound), x, bound) == Last(log + [x], bound)
  {
  }

  function Registered(at: int): Service {
    Service(Healthy, [Transition(Healthy, at, "registered")])
  }

  function Reason(reason: string): string {
    if reason != "" then reason else "manual-report"
  }

  function Report(s: Service, to: State, at: int, reason: string): Service {
    if s.state == to then s
    else Service(to, Push(s.history, Transition(to, at, Reason(reason)), MAX_HISTORY))
  }

  function ReportEvents(name: string, s: Service, to: State, at: int, reason: string): seq<Event> {
    if s.state == to then [] else [Event(name, s.state, to, Reason(reason), at)]
  }

  /**
   A change of state is recorded once in each buffer, with where it came from,
   where it went and why; a report of the current state leaves no trace.
   */
  lemma ReportRecords(name: string, s: Service, to: State, at: int, reason: string)
    ensures s.state == to ==> Report(s, to, at, reason) == s && ReportEvents(name, s, to, at, reason) == []
    ensures s.state != to ==>
              var why := if reason == "" then "manual-report" else reason;
              && Report(s, to, at, reason).state == to
              && Report(s, to, at, reason).history != []
              && Report(s, to, at, reason).history[|Report(s, to, at, reason).history| - 1].state == to
              && Report(s, to, at, reason).history[|Report(s, to, at, reason).history| - 1].at == at
              && Report(s, to, at, reason).history[|Report(s, to, at, reason).history| - 1].reason == why
              && |ReportEvents(name, s, to, at, reason)| == 1
              && var e := ReportEvents(name, s, to, at, reason)[0];
                 e.service == name && e.from == s.state && e.to == to && e.reason == why && e.at == at
    ensures Registered(at).state == Healthy && |Registered(at).history| == 1
    ensures var t := Registered(at).history[0]; t.state == Healthy && t.at == at && t.reason == "registered"
  {
  }

  class Registry {
    var services: map<string, Service>
    var events: seq<Event>

    constructor ()
      ensures services == map[] && events == []
    {
      services, events := map[], [];
    }

    /** False stands for the exception on an empty name. */
    method RegisterService(name: string, at: int) returns (ok: bool)
      modifies this`services
      ensures ok <==> name != ""
      ensures services == if ok then old(services)[name := Registered(at)] else old(services)
    {
      if name == "" { return false; }
      services := services[name := Registered(at)];
      return true;
    }

    /** False stands for the exception on an unknown service. */
    method ReportServiceState(name: string, to: State, at: int, reason: string) returns (known: bool)
      modifies this
      ensures known <==> name in old(services)
      ensures !known ==> services == old(services) && events == old(events)
      ensures known ==> services == old(services)[name := Report(old(services)[name], to, at, reason)]
      ensures known ==> events ==
                        if old(services)[name].state == to then old(events)
                        else Push(old(events), ReportEvents(name, old(services)[name], to, at, reason)[0], MAX_EVENTS)
    {
      if name !in services { return false; }
      var service := services[name];
      var previous := service.state;
      if previous == to {
        assert services == services[name := service];
        return true;
      }
      var history := service.history + [Transition(to, at, Reason(reason))];
      if |history| > MAX_HISTORY { history := history[1..]; }
      services := services[name := Service(to, history)];
      events := events + [Event(name, previous, to, Reason(reason), at)];
      if |events| > MAX_EVENTS { events := events[1..]; }
      return true;
    }
  }
}
