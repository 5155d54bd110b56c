/** The controller's hold on the tunnel: which node is active, and what the core runs. */
module Session {
  import opened Wrappers
  import opened Shortlist
  import opened Supervisor

  /** `settings` is what configs are compiled with; `applied` what the active node's was. */
  datatype Tunnel = Tunnel(
    active: Option<Node>,
    degraded: bool,
    settings: nat,
    applied: nat,
    core: Supervisor.State)

  type Compiler = (Node, nat) -> Option<Rendered>

  datatype Failure = DoesNotCompile | CoreRefused | RoutingRefused

  /** `netd` is `None` when no daemon is connected, else whether it enables routing. */
  function SwitchNode(t: Tunnel, node: Node, compile: Compiler, accepts: Rendered -> bool, luck: Luck,
                      netd: Option<bool>): (Tunnel, Result<string, Failure>)
  {
    match compile(node, t.settings)
    case None => (t, Err(DoesNotCompile))
    case Some(config) =>
      var (core, ok) := Apply(t.core, config, accepts, luck);
      if !ok then (t.(core := core), Err(CoreRefused))
      else if netd == Some(false) then (t.(core := core), Err(RoutingRefused))
      else (Tunnel(Some(node), false, t.settings, t.settings, core), Ok("switched to " + node.name))
  }

  function StopTunnel(t: Tunnel): Tunnel {
    t.(active := None, core := Stop(t.core))
  }

  function DegradeToDirect(t: Tunnel): Tunnel {
    t.(active := None, degraded := true, core := Stop(t.core))
  }

  /** An active node is exactly a held core, running that node's own config. */
  ghost predicate InSync(t: Tunnel, compile: Compiler) {
    && (t.active.Some? <==> t.core.loaded.Some?)
    && (t.active.Some? ==> compile(t.active.value, t.applied) == t.core.loaded)
  }

  ghost predicate Sound(t: Tunnel, compile: Compiler, accepts: Rendered -> bool) {
    InSync(t, compile) && Consistent(t.core, accepts) && (t.degraded ==> t.active.None?)
  }

  datatype Order =
    | Switch(node: Node, luck: Luck, netd: Option<bool>)
    | Shutdown
    | Degrade
    | SetSettings(settings: nat)

  function Obey(t: Tunnel, o: Order, compile: Compiler, accepts: Rendered -> bool): Tunnel {
    match o
    case Switch(node, luck, netd) => SwitchNode(t, node, compile, accepts, luck, netd).0
    case Shutdown => StopTunnel(t)
    case Degrade => DegradeToDirect(t)
    case SetSettings(settings) => t.(settings := settings)
  }

  function Run(t: Tunnel, orders: seq<Order>, compile: Compiler, accepts: Rendered -> bool): Tunnel
    decreases |orders|
  {
    if orders == [] then t else Run(Obey(t, orders[0], compile, accepts), orders[1..], compile, accepts)
  }

  /** The daemon, where there is one, enables routing whenever it is asked to. */
  ghost predicate RoutingNeverFails(orders: seq<Order>) {
    forall o | o in orders :: o.Switch? ==> o.netd != Some(false)
  }

  /**
   Over every run in which no daemon refuses to route, whatever the core does: a
   node is active exactly when the core is held and runs that node's compiled,
   accepted config, and a degraded controller has no active node.
   */
  lemma {:induction false} RunsStaySound(t: Tunnel, orders: seq<Order>, compile: Compiler,
                                         accepts: Rendered -> bool)
    requires Sound(t, compile, accepts) && RoutingNeverFails(orders)
    ensures Sound(Run(t, orders, compile, accepts), compile, accepts)
    decreases |orders|
  {
    if orders == [] {
    } else {
      assert orders[0] in orders;
      if orders[0].Switch? {
        OneSwitch(t, orders[0].node, compile, accepts, orders[0].luck, orders[0].netd);
      }
      assert forall o | o in orders[1..] :: o in orders;
      RunsStaySound(Obey(t, orders[0], compile, accepts), orders[1..], compile, accepts);
    }
  }

  /**
   One switch keeps controller and core in step exactly unless the core took the
   config and the daemon then refused to route it; then they stay in step only if
   the config happens to be the active node's own.
   */
  lemma OneSwitch(t: Tunnel, node: Node, compile: Compiler, accepts: Rendered -> bool, luck: Luck,
                  netd: Option<bool>)
    requires Sound(t, compile, accepts)
    ensures var (after, result) := SwitchNode(t, node, compile, accepts, luck, netd);
            && (Sound(after, compile, accepts) <==>
                  (result == Err(RoutingRefused) ==>
                     t.active.Some? && compile(t.active.value, t.applied) == compile(node, t.settings)))
            && (result == Err(RoutingRefused) <==>
                  && compile(node, t.settings).Some? && accepts(compile(node, t.settings).value)
                  && (if t.active.Some? then luck.signals else luck.spawns) && netd == Some(false))
            && (result.Ok? ==> after.active == Some(node) && !after.degraded)
            && (result.Err? ==> after.active == t.active && after.degraded == t.degraded)
            && (result.Err? && result != Err(RoutingRefused) ==> after.core.loaded == t.core.loaded)
  {
    if compile(node, t.settings).Some? {
      SwapIsTransactional(t.core, compile(node, t.settings).value, accepts, luck);
    }
  }

  /** What a switch needs to succeed, which failure it reports otherwise, and what success means for the core. */
  lemma SwitchSucceedsExactly(t: Tunnel, node: Node, compile: Compiler, accepts: Rendered -> bool, luck: Luck,
                              netd: Option<bool>)
    requires Consistent(t.core, accepts)
    ensures var (after, result) := SwitchNode(t, node, compile, accepts, luck, netd);
            var config := compile(node, t.settings);
            var taken := && config.Some? && accepts(config.value)
                         && (if t.core.loaded.Some? then luck.signals else luck.spawns);
            && (result == Err(DoesNotCompile) <==> config.None?)
            && (result == Err(CoreRefused) <==> config.Some? && !taken)
            && (result.Ok? <==> taken && netd != Some(false))
            && (result.Ok? ==>
                  && after.active == Some(node) && !after.degraded && after.applied == t.settings
                  && after.core.loaded == config && after.core.file == config)
            && after.settings == t.settings
  {
    if compile(node, t.settings).Some? {
      SwapIsTransactional(t.core, compile(node, t.settings).value, accepts, luck);
    }
  }

  /** After a stop or a degrade nothing is active and no core runs; only a degrade raises the flag. */
  lemma StoppingStops(t: Tunnel)
    ensures var s, d := StopTunnel(t), DegradeToDirect(t);
            && s.active.None? && s.core.loaded.None? && d.active.None? && d.core.loaded.None?
            && s.degraded == t.degraded && d.degraded
            && s.core.file == t.core.file == d.core.file && s.settings == t.settings == d.settings
  {
  }

  /** From a fresh start, one refused routing call leaves the core running a node that is not active. */
  lemma RefusedRoutingBreaksStep(node: Node, settings: nat, compile: Compiler, accepts: Rendered -> bool)
    requires compile(node, settings).Some? && accepts(compile(node, settings).value)
    ensures var t := Tunnel(None, false, settings, settings, State(None, None));
            var (after, result) := SwitchNode(t, node, compile, accepts, Luck(true, true, true), Some(false));
            && Sound(t, compile, accepts) && result == Err(RoutingRefused)
            && !Sound(after, compile, accepts)
            && after.active == None && after.core.loaded == compile(node, settings)
  {
  }

  /** And from a tunnel that is up, it leaves the core running another node than the active one. */
  lemma RefusedRoutingSwapsTheCore(serving: Node, node: Node, settings: nat, compile: Compiler,
                                   accepts: Rendered -> bool)
    requires compile(serving, settings).Some? && accepts(compile(serving, settings).value)
    requires compile(node, settings).Some? && accepts(compile(node, settings).value)
    requires compile(node, settings) != compile(serving, settings)
    ensures var config := compile(serving, settings);
            var t := Tunnel(Some(serving), false, settings, settings, State(config, config));
            var (after, _) := SwitchNode(t, node, compile, accepts, Luck(true, true, true), Some(false));
            && Sound(t, compile, accepts) && !Sound(after, compile, accepts)
            && after.active == Some(serving) && after.core.loaded == compile(node, settings)
  {
  }

  class ProxyController {
    const compile: Compiler
    const supervisor: CoreSupervisor
    var active: Option<Node>
    var degraded: bool
    var settings: nat
    ghost var applied: nat

    ghost function View(): Tunnel
      reads this, supervisor
    {
      Tunnel(active, degraded, settings, applied, supervisor.View())
    }

    constructor (compile: Compiler, supervisor: CoreSupervisor, settings: nat)
      ensures this.compile == compile && this.supervisor == supervisor
      ensures View() == Tunnel(None, false, settings, settings, supervisor.View())
    {
      this.compile := compile;
      this.supervisor := supervisor;
      active, degraded := None, false;
      this.settings := settings;
      applied := settings;
    }

    method SwitchTo(node: Node, luck: Luck, netd: Option<bool>) returns (result: Result<string, Failure>)
      modifies this, supervisor
      ensures (View(), result) == SwitchNode(old(View()), node, compile, supervisor.accepts, luck, netd)
    {
      var config := compile(node, settings);
      if config.None? {
        return Err(DoesNotCompile);
      }
      var ok := supervisor.ApplyConfig(config.value, luck);
      if !ok {
        return Err(CoreRefused);
      }
      if netd == Some(false) {
        return Err(RoutingRefused);
      }
      active := Some(node);
      degraded := false;
      applied := settings;
      return Ok("switched to " + node.name);
    }

    method StopSession()
      modifies this, supervisor
      ensures View() == StopTunnel(old(View()))
    {
      supervisor.StopCore();
      active := None;
    }

    method DropToDirect()
      modifies this, supervisor
      ensures View() == DegradeToDirect(old(View()))
    {
      supervisor.StopCore();
      active := None;
      degraded := true;
    }
  }
}
