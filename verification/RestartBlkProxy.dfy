/**
 * Restarting the block proxy again and again, with or without rebinding the drivers of its
 * devices (block-ts/blk-proxy/config/restart_blk_proxy.c).
 */
module RestartBlkProxy {
  import opened Text

  /** What happened to the proxy, and which drivers the devices had then. */
  datatype Event = Stopped(drivers: seq<string>) | Started(drivers: seq<string>)

  /** The drivers while the proxy is restarted. */
  function Meanwhile(withRebind: bool, drivers: seq<string>): seq<string> {
    if withRebind then seq(|drivers|, i => "") else drivers
  }

  function Restart(drivers: seq<string>): seq<Event> {
    [Stopped(drivers), Started(drivers)]
  }

  function Restarts(n: nat, drivers: seq<string>): seq<Event> {
    if n == 0 then [] else Restarts(n - 1, drivers) + Restart(drivers)
  }

  /** With rebinding no device is ever bound while the proxy stops or starts, and the two alternate. */
  lemma {:induction false} RestartsAre(n: nat, withRebind: bool, drivers: seq<string>)
    ensures var events := Restarts(n, Meanwhile(withRebind, drivers));
            && |events| == 2 * n
            && forall k :: 0 <= k < |events| ==>
                 && (events[k].Stopped? <==> k % 2 == 0)
                 && |events[k].drivers| == |drivers|
                 && forall d :: 0 <= d < |drivers| ==>
                      events[k].drivers[d] == if withRebind then "" else drivers[d]
  {
    if n > 0 {
      RestartsAre(n - 1, withRebind, drivers);
    }
  }

  predicate AllBound(drivers: seq<string>) {
    forall i :: 0 <= i < |drivers| ==> drivers[i] != ""
  }

  /** The host with its devices, and the proxy. A device without a driver has the name "". */
  class Setup {
    var drivers: seq<string>
    var running: bool
    var autorestart: nat
    ghost var events: seq<Event>

    constructor (drivers: seq<string>, running: bool, autorestart: nat)
      ensures this.drivers == drivers && this.running == running && this.autorestart == autorestart
      ensures events == []
    {
      this.drivers, this.running, this.autorestart := drivers, running, autorestart;
      events := [];
    }

    method Bind(i: nat, driver: string)
      requires i < |drivers|
      modifies `drivers
      ensures drivers == old(drivers)[i := driver]
    {
      drivers := drivers[i := driver];
    }

    method Unbind(i: nat)
      requires i < |drivers|
      modifies `drivers
      ensures drivers == old(drivers)[i := ""]
    {
      drivers := drivers[i := ""];
    }

    method Stop()
      modifies `running, `events
      ensures !running && events == old(events) + [Stopped(drivers)]
    {
      running := false;
      events := events + [Stopped(drivers)];
    }

    method Start()
      modifies `running, `events
      ensures running && events == old(events) + [Started(drivers)]
    {
      running := true;
      events := events + [Started(drivers)];
    }

    /** Binds as many devices as there are names. */
    method BindAllDrivers(names: seq<string>)
      requires |names| <= |drivers|
      modifies `drivers
      ensures |drivers| == |old(drivers)|
      ensures forall k :: 0 <= k < |drivers| ==> drivers[k] == if k < |names| then names[k] else old(drivers)[k]
    {
      var i := 0;
      while i < |names|
        invariant 0 <= i <= |names|
        invariant |drivers| == |old(drivers)|
        invariant forall k :: 0 <= k < |drivers| ==> drivers[k] == if k < i then names[k] else old(drivers)[k]
      {
        Bind(i, names[i]);
        i := i + 1;
      }
    }

    /** Unbinds as many devices as there are names. */
    method UnbindAllDrivers(names: seq<string>)
      requires |names| <= |drivers|
      modifies `drivers
      ensures |drivers| == |old(drivers)|
      ensures forall k :: 0 <= k < |drivers| ==> drivers[k] == if k < |names| then "" else old(drivers)[k]
    {
      var i := 0;
      while i < |names|
        invariant 0 <= i <= |names|
        invariant |drivers| == |old(drivers)|
        invariant forall k :: 0 <= k < |drivers| ==> drivers[k] == if k < i then "" else old(drivers)[k]
      {
        Unbind(i);
        i := i + 1;
      }
    }

    /** The drivers of all devices, or None when some device has none. */
    method CurrentDrivers() returns (names: Option<seq<string>>)
      ensures names == if AllBound(drivers) then Some(drivers) else None
    {
      var collected: seq<string> := [];
      var j := 0;
      while j < |drivers|
        invariant 0 <= j <= |drivers|
        invariant collected == drivers[..j] && AllBound(collected)
      {
        if drivers[j] == "" {
          return None;
        }
        collected := collected + [drivers[j]];
        j := j + 1;
      }
      assert drivers[..j] == drivers;
      return Some(collected);
    }

    /**
     * One turn of the loop: restarts the proxy, with the drivers unbound meanwhile when
     * withRebind is set. The names are those collected so far, and value the autorestart found.
     */
    method Iteration(withRebind: bool, names: seq<string>)
      returns (ok: bool, names': seq<string>, value: nat)
      requires names == []
      modifies this
      ensures ok <==> old(running) && (withRebind ==> AllBound(old(drivers)))
      ensures drivers == old(drivers) && running == old(running)
      ensures events == old(events) + if ok then Restart(Meanwhile(withRebind, old(drivers))) else []
      ensures autorestart == if ok then 0 else old(autorestart)
      ensures ok ==> names' == [] && value == old(autorestart)
    {
      names', value := names, 0;
      if !running {
        return false, names', value;
      }
      if withRebind {
        var current := CurrentDrivers();
        if current == None {
          return false, names', value;
        }
        names' := names' + current.value;
        UnbindAllDrivers(names');
        assert drivers == Meanwhile(true, old(drivers));
      }
      value := autorestart;
      if value != 0 {
        autorestart := 0;
      }
      Stop();
      if running {
        return false, names', value;
      }
      Start();
      if withRebind {
        BindAllDrivers(names');
        assert drivers == old(drivers);
        names' := [];
      }
      return true, names', value;
    }

    /**
     * The test: restarts the proxy iterNum times and, with withRebind, unbinds the drivers
     * before and binds them again after each restart.
     */
    method RunTest(withRebind: bool, iterNum: nat) returns (passed: bool)
      modifies this
      ensures passed <==> iterNum == 0 || (old(running) && (withRebind ==> AllBound(old(drivers))))
      ensures drivers == old(drivers) && running == old(running)
      ensures events == old(events) + Restarts(if passed then iterNum else 0, Meanwhile(withRebind, old(drivers)))
      ensures passed && iterNum > 0 ==> autorestart == if iterNum == 1 then old(autorestart) else 0
    {
      var names: seq<string> := [];
      var autorestartValue := 0;
      var i := 0;
      while i < iterNum
        invariant 0 <= i <= iterNum && names == []
        invariant drivers == old(drivers) && running == old(running)
        invariant i > 0 ==> running && (withRebind ==> AllBound(drivers))
        invariant events == old(events) + Restarts(i, Meanwhile(withRebind, old(drivers)))
        invariant autorestart == if i == 0 then old(autorestart) else 0
        invariant autorestartValue == if i == 1 then old(autorestart) else 0
      {
        var ok;
        ok, names, autorestartValue := Iteration(withRebind, names);
        if !ok {
          return false;
        }
        i := i + 1;
      }
      if autorestartValue != 0 {
        autorestart := autorestartValue;
      }
      return true;
    }
  }
}
