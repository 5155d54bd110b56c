/**
 The supervisor of the core process: a config file, a process that may be held,
 and a swap of configs that must never leave the two apart. The validator is any
 deterministic predicate; spawning and signalling may fail at will.
 */
module Supervisor {
  import opened Wrappers

  type Rendered = seq<nat>

  /** The config file, and what the held process last loaded, if one is held. */
  datatype State = State(file: Option<Rendered>, loaded: Option<Rendered>)

  /** How the foreign calls of one swap turn out. */
  datatype Luck = Luck(spawns: bool, signals: bool, signalsAgain: bool)

  predicate Validates(s: State, accepts: Rendered -> bool) {
    s.file.Some? && accepts(s.file.value)
  }

  function Start(s: State, accepts: Rendered -> bool, spawns: bool): (State, bool) {
    if Validates(s, accepts) && spawns then (s.(loaded := s.file), true) else (s, false)
  }

  /** A delivered signal makes the process load the file. */
  function Reload(s: State, accepts: Rendered -> bool, signals: bool): (State, bool) {
    if Validates(s, accepts) && s.loaded.Some? && signals then (s.(loaded := s.file), true) else (s, false)
  }

  function Stop(s: State): State {
    s.(loaded := None)
  }

  function Apply(s: State, config: Rendered, accepts: Rendered -> bool, luck: Luck): (State, bool) {
    var written := s.(file := Some(config));
    var (tried, ok) :=
      if !Validates(written, accepts) then (written, false)
      else if written.loaded.Some? then Reload(written, accepts, luck.signals)
      else Start(written, accepts, luck.spawns);
    if ok || s.file.None? then (tried, ok)
    else
      var restored := tried.(file := s.file);
      (if restored.loaded.Some? then Reload(restored, accepts, luck.signalsAgain).0 else restored, false)
  }

  /** A held process runs what the file says, and the validator accepted it. */
  ghost predicate Consistent(s: State, accepts: Rendered -> bool) {
    s.loaded.Some? ==> s.file == s.loaded && accepts(s.loaded.value)
  }

  /**
   A swap succeeds exactly when the validator accepts the config and the process
   takes it; then the process runs it. Otherwise the process is as it was, and
   so is any file there was.
   */
  lemma SwapIsTransactional(s: State, config: Rendered, accepts: Rendered -> bool, luck: Luck)
    requires Consistent(s, accepts)
    ensures var (after, ok) := Apply(s, config, accepts, luck);
            && Consistent(after, accepts)
            && (ok <==> accepts(config) && if s.loaded.Some? then luck.signals else luck.spawns)
            && (ok ==> after == State(Some(config), Some(config)))
            && (!ok ==> after.loaded == s.loaded && after.file == if s.file.Some? then s.file else Some(config))
  {
  }

  /** A core starts, or reloads while it is held, exactly on an accepted file and a foreign call that works. */
  lemma CoresTakeAcceptedFiles(s: State, accepts: Rendered -> bool, works: bool)
    ensures var valid := s.file.Some? && accepts(s.file.value);
            var (started, up) := Start(s, accepts, works);
            var (reloaded, took) := Reload(s, accepts, works);
            && (up <==> valid && works) && (took <==> valid && works && s.loaded.Some?)
            && started == State(s.file, if up then s.file else s.loaded)
            && reloaded == State(s.file, if took then s.file else s.loaded)
  {
  }

  datatype Move = Swap(config: Rendered, luck: Luck) | Halt

  function Run(s: State, moves: seq<Move>, accepts: Rendered -> bool): State
    decreases |moves|
  {
    if moves == [] then s
    else
      Run(match moves[0]
          case Swap(config, luck) => Apply(s, config, accepts, luck).0
          case Halt => Stop(s),
          moves[1..], accepts)
  }

  /** Over every run of swaps and stops the file stays in step with a held process. */
  lemma {:induction false} RunsStayConsistent(s: State, moves: seq<Move>,
                                              accepts: Rendered -> bool)
    requires Consistent(s, accepts)
    ensures Consistent(Run(s, moves, accepts), accepts)
    decreases |moves|
  {
    if moves == [] {
    } else {
      match moves[0]
      case Swap(config, luck) =>
        SwapIsTransactional(s, config, accepts, luck);
        RunsStayConsistent(Apply(s, config, accepts, luck).0, moves[1..], accepts);
      case Halt =>
        RunsStayConsistent(Stop(s), moves[1..], accepts);
    }
  }

  class CoreSupervisor {
    const accepts: Rendered -> bool
    var file: Option<Rendered>
    var child: Option<Rendered>

    ghost function View(): State
      reads this
    {
      State(file, child)
    }

    constructor (accepts: Rendered -> bool, file: Option<Rendered>)
      ensures this.accepts == accepts && View() == State(file, None)
    {
      this.accepts := accepts;
      this.file := file;
      child := None;
    }

    method ValidateConfig() returns (ok: bool)
      ensures ok <==> Validates(View(), accepts)
    {
      return file.Some? && accepts(file.value);
    }

    method StartCore(spawns: bool) returns (ok: bool)
      modifies this
      ensures (View(), ok) == Start(old(View()), accepts, spawns)
    {
      var valid := ValidateConfig();
      if !valid || !spawns {
        return false;
      }
      child := file;
      return true;
    }

    method ReloadCore(signals: bool) returns (ok: bool)
      modifies this
      ensures (View(), ok) == Reload(old(View()), accepts, signals)
    {
      var valid := ValidateConfig();
      if !valid || child.None? || !signals {
        return false;
      }
      child := file;
      return true;
    }

    method StopCore()
      modifies this
      ensures View() == Stop(old(View()))
    {
      child := None;
    }

    method ApplyConfig(config: Rendered, luck: Luck) returns (ok: bool)
      modifies this
      ensures (View(), ok) == Apply(old(View()), config, accepts, luck)
    {
      var previous := file;
      file := Some(config);
      ok := ValidateConfig();
      if ok {
        if child.Some? {
          ok := ReloadCore(luck.signals);
        } else {
          ok := StartCore(luck.spawns);
        }
      }
      if !ok && previous.Some? {
        file := previous;
        if child.Some? {
          var _ := ReloadCore(luck.signalsAgain);
        }
      }
    }
  }
}
