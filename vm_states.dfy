/**
  * The VM state vocabulary: `SCVM.state_map` and the status-string sets of
  * `SCVMMSystem` (wrapanapi/systems/scvmm.py).
  */
module VmStates {

  /** The canonical states the tables mention, plus the default for an unmapped status. */
  datatype VmState = Running | Stopped | Paused | Error | Unknown

  /** `SCVM.state_map()`: manager status string to canonical state. */
  const StateMap: map<string, VmState> := map[
    "Running" := Running,
    "PowerOff" := Stopped,
    "Paused" := Paused,
    "Missing" := Error,
    "Creation Failed" := Error
  ]

  /** The state of a status string: its `state_map` entry, `Unknown` when it has none. */
  function StateOf(status: string): VmState {
    if status in StateMap then StateMap[status] else Unknown
  }

  const StateRunning := "Running"
  const StatesStopped: set<string> := {"PowerOff", "Stopped"}
  const StatePaused := "Paused"
  const StatesSteady: set<string> := {StateRunning, StatePaused} + StatesStopped
  const StatesFailed: set<string> := {"Creation Failed"}

  /** The table maps exactly five statuses; both failure statuses map to `Error`. */
  lemma StateMapDomain()
    ensures StateMap.Keys == {"Running", "PowerOff", "Paused", "Missing", "Creation Failed"}
    ensures StateOf("Missing") == Error && StateOf("Creation Failed") == Error
    ensures forall s :: StateOf(s) == Error <==> s == "Missing" || s == "Creation Failed"
  {
  }

  /** Steady means running, paused or one of the two stopped spellings. */
  lemma SteadySet()
    ensures StatesSteady == {"Running", "Paused", "PowerOff", "Stopped"}
    ensures StatesStopped <= StatesSteady
  {
  }

  /** A failed status is never steady, and it maps to `Error`. */
  lemma FailedIsNotSteady()
    ensures StatesFailed !! StatesSteady
    ensures forall s :: s in StatesFailed ==> StateOf(s) == Error
  {
  }

  /** No steady status maps to `Error`; each mapped one lands where its set says. */
  lemma SteadyStatesAgreeWithTable()
    ensures forall s :: s in StatesSteady ==> StateOf(s) != Error
    ensures StateOf(StateRunning) == Running && StateOf(StatePaused) == Paused
    ensures StateOf("PowerOff") == Stopped
  {
  }

  /**
    * `Stopped` is a stopped status for the sets but has no `state_map` entry,
    * so the table alone leaves it `Unknown`.
    */
  lemma StoppedSpellingUnmapped()
    ensures "Stopped" in StatesStopped && "Stopped" !in StateMap
    ensures StateOf("Stopped") == Unknown
    ensures StateOf("Bogus") == Unknown
  {
  }
}
