/**
  * The remote actions the adapter issues, the replies it gets back, the errors
  * it raises, and the orderings its operations promise over the log of
  * issued actions. Scripts are opaque: each is named by its action and its
  * flag tokens only.
  */
module Commands {
  import opened Wrappers
  import PropertyTree
  import opened VmStates

  /** The `{action}-SCVirtualMachine` cmdlets `_do_vm` pipes a VM into. */
  datatype VmAction = Start | Resume | Stop | Reset | Suspend | Remove | Set

  /** The parameters `_do_vm` appends. */
  datatype VmParams = NoParams | Shutdown | Force | NewName(newName: string)

  /** The flags `deploy_template` appends to `New-SCVirtualMachine`. */
  datatype CreateFlag = CpuCount(cpu: int) | MemoryMB(ram: int)

  /** What the `list_*` methods enumerate. */
  datatype Listing = AllVms | Hosts | Clusters | Templates | Networks

  datatype Command =
    // PowerShell scripts, run through `run_script`
    | GetVm(vm: string)                  // Get-SCVirtualMachine -Name vm
    | GetVmXml(vm: string)               // ... | ConvertTo-Xml
    | GetVmHostXml(vm: string)           // ... | select VmHost | ConvertTo-Xml
    | ListXml(listing: Listing)          // Get-SC... | ConvertTo-Xml
    | GetIpAddresses(vm: string)         // ... | Get-SCVirtualNetworkAdapter | Select IPv4Addresses
    | DoVm(vm: string, action: VmAction, params: VmParams)
    | CloneVm(source: string, host: string, path: string, target: string, startVm: bool)
    | EnableServices(vm: string)         // Enable-VMIntegrationService 'Guest Service Interface'
    | GetTemplate(template: string)      // Get-SCVMTemplate -Name template
    | RemoveTemplate(template: string)   // Remove-SCVMTemplate -Force
    | NewTemplate(vm: string, library: string, share: string)
    | CreateFromTemplate(template: string, hostGroup: string, vm: string, flags: seq<CreateFlag>)
    | ReadVm(vm: string)                 // update_scvmm_virtualmachine
    | ReadHost(host: string)             // update_scvmm_vmhost
    | ReadLibrary                        // update_scvmm_library
    | RemoveDvd(vm: string)              // $DVDDrive[0] | Remove-SCVirtualDVDDrive
    // actions of base classes that are not part of this model, recorded as such
    | EnsureState(vm: string, state: VmState)
    | IsSuspended(vm: string)
    | Refresh(vm: string)
    | StartVm(vm: string)
    | WaitVmRunning(vm: string, timeout: int)

  predicate IsScript(c: Command) {
    !(c.EnsureState? || c.IsSuspended? || c.Refresh? || c.StartVm? || c.WaitVmRunning?)
  }

  /** What the session returns for one action. */
  datatype Reply = Reply(status: int, stdout: string, stderr: string)

  /** The remote side: the reply to an action, given every action sent before it. */
  type Remote = (seq<Command>, Command) -> Reply

  /** The exceptions the adapter lets through. */
  datatype Failure =
    | ScriptError(status: int, stderr: string)   // PowerShellScriptError from run_script
    | TemplateMissing(template: string)           // PowerShellScriptError from deploy_template
    | ActionFailed(action: Command)               // a base-class action raised (a wait timed out, ...)
    | XmlSyntax                                   // etree.fromstring refused the output
    | NoElement                                   // [0] of an empty XPath result
    | NoAttribute(attribute: string)              // AttributeError on a data holder
    | Malformed(cause: PropertyTree.TreeError)    // KeyError or ValueError while deserializing

  /** The exception an action raises when its reply has a non-zero status. */
  function StepFailure(c: Command, rep: Reply): Failure {
    if IsScript(c) then ScriptError(rep.status, rep.stderr) else ActionFailed(c)
  }

  /////////////////////////////////////////////////////////////////////////////
  // Straight-line sequences: each action runs only if every earlier one succeeded

  /** Two actions appended one after the other are the two appended together. */
  lemma AppendTwo<T>(h: seq<T>, x: T, y: T)
    ensures h + [x] + [y] == h + [x, y]
  {
  }

  lemma AppendThird<T>(h: seq<T>, x: T, y: T, z: T)
    ensures h + [x, y] + [z] == h + [x, y, z]
  {
  }

  /** Cutting a plan at `k`: the prefix, action `k`, and the rest. */
  lemma SplitAt<T>(s: seq<T>, k: nat)
    requires k < |s|
    ensures s[..k] + [s[k]] == s[..k + 1]
    ensures s[..k + 1] + s[k + 1..] == s
  {
  }

  /** The empty prefix adds nothing to a history, and the whole prefix is the plan. */
  lemma WholePlan<T>(h: seq<T>, s: seq<T>)
    ensures h + s[..0] == h && s[..|s|] == s
  {
    assert s[..0] == [];
  }

  /** Moving the first action of a plan into the history leaves the history-plus-prefix alone. */
  lemma ShiftFirst<T>(h: seq<T>, cs: seq<T>, j: nat)
    requires 1 <= j <= |cs|
    ensures (h + [cs[0]]) + cs[1..][..j - 1] == h + cs[..j]
    ensures j == |cs| ==> (h + [cs[0]]) + cs[1..] == h + cs
  {
    assert cs[..j] == [cs[0]] + cs[1..][..j - 1];
    assert cs == cs[..|cs|];
  }

  /** The actions actually sent, and the exception that ended the sequence early, if any. */
  datatype Run = Run(sent: seq<Command>, failure: Option<Failure>)

  /** Running `cs` in order after the history `h`, stopping at the first action whose reply fails. */
  function Steps(remote: Remote, h: seq<Command>, cs: seq<Command>): Run
    decreases |cs|
  {
    if cs == [] then Run([], None)
    else
      var rep := remote(h, cs[0]);
      if rep.status != 0 then Run([cs[0]], Some(StepFailure(cs[0], rep)))
      else
        var rest := Steps(remote, h + [cs[0]], cs[1..]);
        Run([cs[0]] + rest.sent, rest.failure)
  }

  /** A run sends a prefix of its plan. */
  lemma {:induction false} StepsSendPrefix(remote: Remote, h: seq<Command>, cs: seq<Command>)
    ensures var r := Steps(remote, h, cs);
      |r.sent| <= |cs| && r.sent == cs[..|r.sent|]
    decreases |cs|
  {
    if cs != [] && remote(h, cs[0]).status == 0 {
      StepsSendPrefix(remote, h + [cs[0]], cs[1..]);
      var rest := Steps(remote, h + [cs[0]], cs[1..]);
      assert [cs[0]] + rest.sent == cs[..|rest.sent| + 1];
    }
  }

  /** The actions of a run that succeeded. */
  function Completed(r: Run): nat {
    if r.failure.Some? && |r.sent| > 0 then |r.sent| - 1 else |r.sent|
  }

  function Outcome<T>(r: Run, value: T): Result<T, Failure> {
    if r.failure.Some? then Err(r.failure.value) else Ok(value)
  }

  /** Every action of a run before its failing one was accepted. */
  lemma {:induction false} StepsCompletedSucceeded(remote: Remote, h: seq<Command>, cs: seq<Command>)
    ensures var r := Steps(remote, h, cs);
      |r.sent| <= |cs| && forall j :: 0 <= j < Completed(r) ==> remote(h + cs[..j], cs[j]).status == 0
    decreases |cs|
  {
    StepsSendPrefix(remote, h, cs);
    var r := Steps(remote, h, cs);
    if cs != [] && remote(h, cs[0]).status == 0 {
      var tail := cs[1..];
      var rest := Steps(remote, h + [cs[0]], tail);
      assert r == Run([cs[0]] + rest.sent, rest.failure);
      StepsCompletedSucceeded(remote, h + [cs[0]], tail);
      assert Completed(r) == Completed(rest) + 1;
      forall j | 0 <= j < Completed(r)
        ensures remote(h + cs[..j], cs[j]).status == 0
      {
        if j == 0 {
          assert h + cs[..0] == h;
        } else {
          assert h + cs[..j] == (h + [cs[0]]) + tail[..j - 1];
          assert cs[j] == tail[j - 1];
        }
      }
    }
  }

  /** A run without a failure sent every action. */
  lemma {:induction false} StepsWithoutFailure(remote: Remote, h: seq<Command>, cs: seq<Command>)
    ensures Steps(remote, h, cs).failure.None? ==> Steps(remote, h, cs).sent == cs
    decreases |cs|
  {
    if cs != [] && remote(h, cs[0]).status == 0 {
      StepsWithoutFailure(remote, h + [cs[0]], cs[1..]);
      assert [cs[0]] + cs[1..] == cs;
    }
  }

  /** A failed run ends with the action that failed, and reports that action's failure. */
  lemma {:induction false} StepsFailureIsLast(remote: Remote, h: seq<Command>, cs: seq<Command>)
    ensures var r := Steps(remote, h, cs);
      r.failure.Some? ==>
        var k := |r.sent| - 1;
        0 <= k < |cs| && remote(h + cs[..k], cs[k]).status != 0 &&
        r.failure.value == StepFailure(cs[k], remote(h + cs[..k], cs[k]))
    decreases |cs|
  {
    if cs != [] {
      var r := Steps(remote, h, cs);
      var tail := cs[1..];
      if remote(h, cs[0]).status == 0 {
        var rest := Steps(remote, h + [cs[0]], tail);
        StepsFailureIsLast(remote, h + [cs[0]], tail);
        if r.failure.Some? {
          var k := |r.sent| - 1;
          assert k == |rest.sent|;
          assert h + cs[..k] == (h + [cs[0]]) + tail[..k - 1];
          assert cs[k] == tail[k - 1];
        }
      } else {
        assert h + cs[..0] == h;
      }
    }
  }

  /**
    * A run sends a prefix of its actions: all of them when every one succeeds,
    * otherwise up to and including the first that fails, whose failure it reports.
    */
  lemma StepsCharacterized(remote: Remote, h: seq<Command>, cs: seq<Command>)
    ensures var r := Steps(remote, h, cs);
      && |r.sent| <= |cs| && r.sent == cs[..|r.sent|]
      && (forall j :: 0 <= j < Completed(r) ==> remote(h + cs[..j], cs[j]).status == 0)
      && (r.failure.None? ==> r.sent == cs)
      && (r.failure.Some? ==>
            var k := |r.sent| - 1;
            0 <= k < |cs| && remote(h + cs[..k], cs[k]).status != 0 &&
            r.failure.value == StepFailure(cs[k], remote(h + cs[..k], cs[k])))
  {
    StepsSendPrefix(remote, h, cs);
    StepsCompletedSucceeded(remote, h, cs);
    StepsWithoutFailure(remote, h, cs);
    StepsFailureIsLast(remote, h, cs);
  }

  /** Conversely, the replies determine the run: it stops exactly at the first failing action. */
  lemma {:induction false} StepsUpTo(remote: Remote, h: seq<Command>, cs: seq<Command>, k: nat)
    requires k <= |cs|
    requires forall j :: 0 <= j < k ==> remote(h + cs[..j], cs[j]).status == 0
    ensures k == |cs| ==> Steps(remote, h, cs) == Run(cs, None)
    ensures k < |cs| && remote(h + cs[..k], cs[k]).status != 0 ==>
      Steps(remote, h, cs) == Run(cs[..k + 1], Some(StepFailure(cs[k], remote(h + cs[..k], cs[k]))))
    decreases |cs|
  {
    if cs != [] {
      assert h + cs[..0] == h;
      var tail := cs[1..];
      if k > 0 {
        assert remote(h, cs[0]).status == 0;
        forall j | 0 <= j < k - 1
          ensures remote((h + [cs[0]]) + tail[..j], tail[j]).status == 0
        {
          assert (h + [cs[0]]) + tail[..j] == h + cs[..j + 1];
          assert tail[j] == cs[j + 1];
        }
        StepsUpTo(remote, h + [cs[0]], tail, k - 1);
        var rest := Steps(remote, h + [cs[0]], tail);
        assert Steps(remote, h, cs) == Run([cs[0]] + rest.sent, rest.failure);
        if k < |cs| {
          assert (h + [cs[0]]) + tail[..k - 1] == h + cs[..k];
          assert tail[k - 1] == cs[k];
          assert [cs[0]] + tail[..k] == cs[..k + 1];
        } else {
          assert [cs[0]] + tail == cs;
        }
      } else {
        assert cs[..1] == [cs[0]];
      }
    }
  }

  /** One more action after a run that accepted every action: it is sent, and its reply decides. */
  lemma {:induction false} StepsSnoc(remote: Remote, h: seq<Command>, cs: seq<Command>, c: Command)
    requires Steps(remote, h, cs) == Run(cs, None)
    ensures var rep := remote(h + cs, c);
      Steps(remote, h, cs + [c]) == Run(cs + [c], if rep.status != 0 then Some(StepFailure(c, rep)) else None)
    decreases |cs|
  {
    if cs == [] {
      assert cs + [c] == [c] && h + cs == h && [c][1..] == [];
      assert Steps(remote, h + [c], []) == Run([], None);
    } else {
      var xs := cs + [c];
      assert xs[0] == cs[0] && xs[1..] == cs[1..] + [c];
      assert remote(h, cs[0]).status == 0;
      var h1 := h + [cs[0]];
      var r1 := Steps(remote, h1, cs[1..]);
      assert [cs[0]] + r1.sent == cs && r1.failure.None?;
      assert r1.sent == cs[1..];
      StepsSnoc(remote, h1, cs[1..], c);
      ShiftFirst(h, cs, |cs|);
      assert [cs[0]] + (cs[1..] + [c]) == xs;
    }
  }

  /** Actions after a failed one are never sent. */
  lemma {:induction false} StepsStopAtFailure(remote: Remote, h: seq<Command>, cs: seq<Command>, rest: seq<Command>)
    requires Steps(remote, h, cs).failure.Some?
    ensures Steps(remote, h, cs + rest) == Steps(remote, h, cs)
    decreases |cs|
  {
    assert (cs + rest)[0] == cs[0] && (cs + rest)[1..] == cs[1..] + rest;
    if remote(h, cs[0]).status == 0 {
      StepsStopAtFailure(remote, h + [cs[0]], cs[1..], rest);
    }
  }

  /** One step of a run whose actions so far all succeeded. */
  lemma StepsNext(remote: Remote, h: seq<Command>, done: seq<Command>, c: Command, rest: seq<Command>)
    requires Steps(remote, h, done) == Run(done, None)
    ensures var rep := remote(h + done, c);
      && (rep.status != 0 ==> Steps(remote, h, done + [c] + rest) == Run(done + [c], Some(StepFailure(c, rep))))
      && (rep.status == 0 ==> Steps(remote, h, done + [c]) == Run(done + [c], None))
  {
    StepsSnoc(remote, h, done, c);
    if remote(h + done, c).status != 0 {
      StepsStopAtFailure(remote, h, done + [c], rest);
    }
  }

  /////////////////////////////////////////////////////////////////////////////
  // Orderings over the log of issued actions

  /** The VM mutations that `ensure_state(STOPPED)` must precede. */
  predicate Guarded(c: Command) {
    c.DoVm? && (c.action == Remove || c.action == Set)
  }

  /** Position `i`, if it holds a guarded mutation, comes right after `ensure_state(STOPPED)` on that VM. */
  predicate GuardedAt(log: seq<Command>, i: int) {
    0 <= i < |log| && Guarded(log[i]) ==> 0 < i && log[i - 1] == EnsureState(log[i].vm, Stopped)
  }

  /** Every `Remove` and `Set` of a VM comes right after `ensure_state(STOPPED)` on that VM. */
  ghost predicate StopGuarded(log: seq<Command>) {
    forall i :: GuardedAt(log, i)
  }

  predicate TemplateChange(c: Command) {
    c.RemoveTemplate? || c.NewTemplate?
  }

  /** Position `i`, if it holds a template change the manager accepted, is followed by the library refresh. */
  predicate RefreshedAt(remote: Remote, log: seq<Command>, i: int) {
    0 <= i < |log| && TemplateChange(log[i]) && remote(log[..i], log[i]).status == 0 ==>
      i + 1 < |log| && log[i + 1] == ReadLibrary
  }

  /** Every template change the manager accepted is followed at once by the library refresh. */
  ghost predicate LibraryRefreshed(remote: Remote, log: seq<Command>) {
    forall i :: RefreshedAt(remote, log, i)
  }

  /** The same, for position `j` of the actions `e` appended to the history `h`. */
  predicate RefreshedAfterAt(remote: Remote, h: seq<Command>, e: seq<Command>, j: int) {
    0 <= j < |e| && TemplateChange(e[j]) && remote(h + e[..j], e[j]).status == 0 ==>
      j + 1 < |e| && e[j + 1] == ReadLibrary
  }

  /** The orderings every operation of the adapter keeps. */
  ghost predicate WellSequenced(remote: Remote, log: seq<Command>) {
    StopGuarded(log) && LibraryRefreshed(remote, log)
  }

  /** Appending a well-ordered block that does not begin with a guarded mutation keeps the orderings. */
  lemma Extend(remote: Remote, h: seq<Command>, e: seq<Command>)
    requires WellSequenced(remote, h)
    requires StopGuarded(e) && (|e| > 0 ==> !Guarded(e[0]))
    requires forall j :: RefreshedAfterAt(remote, h, e, j)
    ensures WellSequenced(remote, h + e)
  {
    var log := h + e;
    forall i
      ensures GuardedAt(log, i)
    {
      if 0 <= i < |h| {
        assert GuardedAt(h, i);
        assert log[i] == h[i] && (i > 0 ==> log[i - 1] == h[i - 1]);
      } else if |h| <= i < |log| {
        var j := i - |h|;
        assert GuardedAt(e, j);
        assert log[i] == e[j] && (j > 0 ==> log[i - 1] == e[j - 1]);
      }
    }
    forall i
      ensures RefreshedAt(remote, log, i)
    {
      if 0 <= i < |h| {
        assert RefreshedAt(remote, h, i);
        assert log[..i] == h[..i] && log[i] == h[i] && (i + 1 < |h| ==> log[i + 1] == h[i + 1]);
      } else if |h| <= i < |log| {
        var j := i - |h|;
        assert RefreshedAfterAt(remote, h, e, j);
        assert log[..i] == h + e[..j] && log[i] == e[j] && (j + 1 < |e| ==> log[i + 1] == e[j + 1]);
      }
    }
  }

  /** A block with no guarded mutation and no template change keeps the orderings. */
  lemma PlainExtend(remote: Remote, h: seq<Command>, e: seq<Command>)
    requires WellSequenced(remote, h)
    requires forall j :: 0 <= j < |e| ==> !Guarded(e[j]) && !TemplateChange(e[j])
    ensures WellSequenced(remote, h + e)
  {
    forall i
      ensures GuardedAt(e, i)
    {
    }
    forall j
      ensures RefreshedAfterAt(remote, h, e, j)
    {
    }
    Extend(remote, h, e);
  }

  /** Appending one action that is neither a guarded mutation nor a template change keeps the orderings. */
  lemma PlainAppend(remote: Remote, h: seq<Command>, c: Command)
    requires WellSequenced(remote, h)
    requires !Guarded(c) && !TemplateChange(c)
    ensures WellSequenced(remote, h + [c])
  {
    PlainExtend(remote, h, [c]);
  }

  /** Position `j` of a plan, if it holds a template change, is followed by the library refresh. */
  predicate PlannedRefreshAt(cs: seq<Command>, j: int) {
    0 <= j < |cs| && TemplateChange(cs[j]) ==> j + 1 < |cs| && cs[j + 1] == ReadLibrary
  }

  /** An operation's plan: guards right before their mutations, refreshes right after template changes. */
  ghost predicate Ordered(cs: seq<Command>) {
    && StopGuarded(cs)
    && (|cs| > 0 ==> !Guarded(cs[0]))
    && (forall j :: PlannedRefreshAt(cs, j))
  }

  /**
    * Running a well-ordered plan keeps the orderings whatever the replies: a
    * run stops only after a failing action, so an accepted template change is
    * never the last action sent.
    */
  lemma StepsKeepOrder(remote: Remote, h: seq<Command>, cs: seq<Command>)
    requires WellSequenced(remote, h) && Ordered(cs)
    ensures WellSequenced(remote, h + Steps(remote, h, cs).sent)
  {
    var r := Steps(remote, h, cs);
    var e := r.sent;
    StepsCharacterized(remote, h, cs);
    forall i
      ensures GuardedAt(e, i)
    {
      assert GuardedAt(cs, i);
      if 0 <= i < |e| {
        assert e[i] == cs[i] && (i > 0 ==> e[i - 1] == cs[i - 1]);
      }
    }
    forall j
      ensures RefreshedAfterAt(remote, h, e, j)
    {
      assert PlannedRefreshAt(cs, j);
      if 0 <= j < |e| {
        assert e[..j] == cs[..j] && e[j] == cs[j];
        if r.failure.Some? && TemplateChange(e[j]) && remote(h + e[..j], e[j]).status == 0 {
          assert j != |e| - 1;
        }
        if j + 1 < |e| {
          assert e[j + 1] == cs[j + 1];
        }
      }
    }
    Extend(remote, h, e);
  }

  /** A guarded mutation is sent only after its stop guard, which the manager accepted. */
  lemma GuardAccepted(remote: Remote, h: seq<Command>, cs: seq<Command>, i: nat)
    requires Ordered(cs)
    requires i < |Steps(remote, h, cs).sent| && i < |cs| && Guarded(cs[i])
    ensures 0 < i && cs[i - 1] == EnsureState(cs[i].vm, Stopped)
    ensures remote(h + cs[..i - 1], cs[i - 1]).status == 0
  {
    StepsCharacterized(remote, h, cs);
    assert GuardedAt(cs, i);
  }

  /** `SCVM.delete`: stop the VM, then remove it. */
  function DeletePlan(vm: string): seq<Command> {
    [EnsureState(vm, Stopped), DoVm(vm, Remove, NoParams)]
  }

  /** `SCVM.rename`: stop the VM, set its new name, then refresh it under that name. */
  function RenamePlan(vm: string, newName: string): seq<Command> {
    [EnsureState(vm, Stopped), DoVm(vm, Set, NewName(newName)), Refresh(newName)]
  }

  /** `delete_template` once the template is found, and `mark_as_template`: change, then refresh. */
  function TemplatePlan(change: Command): seq<Command> {
    [change, ReadLibrary]
  }

  lemma PlansOrdered(vm: string, newName: string, template: string, library: string, share: string)
    ensures Ordered(DeletePlan(vm)) && Ordered(RenamePlan(vm, newName))
    ensures Ordered(TemplatePlan(RemoveTemplate(template)))
    ensures Ordered(TemplatePlan(NewTemplate(vm, library, share)))
  {
  }

  /**
    * A VM is removed only once `ensure_state(STOPPED)` succeeded, and a
    * removed template is always followed by the library refresh.
    */
  lemma DeleteRemovesStoppedVm(remote: Remote, h: seq<Command>, vm: string, template: string)
    ensures DoVm(vm, Remove, NoParams) in Steps(remote, h, DeletePlan(vm)).sent ==>
      remote(h, EnsureState(vm, Stopped)).status == 0
    ensures var run := Steps(remote, h, TemplatePlan(RemoveTemplate(template)));
      remote(h, RemoveTemplate(template)).status == 0 <==> run.sent == TemplatePlan(RemoveTemplate(template))
  {
    var cs := DeletePlan(vm);
    if DoVm(vm, Remove, NoParams) in Steps(remote, h, cs).sent {
      GuardAccepted(remote, h, cs, 1);
      assert h + cs[..0] == h;
    }
    var ts := TemplatePlan(RemoveTemplate(template));
    StepsCharacterized(remote, h, ts);
    assert h + ts[..0] == h;
  }

  /**
    * `SCVM.rename` takes the new name exactly when the guard and the `Set`
    * were both accepted.
    */
  lemma RenameTakesNameWhenSet(remote: Remote, h: seq<Command>, vm: string, newName: string)
    ensures var cs := RenamePlan(vm, newName);
      Completed(Steps(remote, h, cs)) >= 2 <==>
        remote(h, cs[0]).status == 0 && remote(h + [cs[0]], cs[1]).status == 0
  {
    var cs := RenamePlan(vm, newName);
    StepsCharacterized(remote, h, cs);
    assert h + cs[..0] == h && h + cs[..1] == h + [cs[0]];
  }

  /////////////////////////////////////////////////////////////////////////////
  // deploy_template

  const DefaultTimeout := 900

  /** `-CPUCount` only for a non-zero CPU count, then `-MemoryMB` only for a non-zero size. */
  function CreateFlags(cpu: int, ram: int): seq<CreateFlag> {
    (if cpu != 0 then [CpuCount(cpu)] else []) + (if ram != 0 then [MemoryMB(ram)] else [])
  }

  lemma CreateFlagsShape(cpu: int, ram: int)
    ensures CpuCount(cpu) in CreateFlags(cpu, ram) <==> cpu != 0
    ensures MemoryMB(ram) in CreateFlags(cpu, ram) <==> ram != 0
    ensures forall f :: f in CreateFlags(cpu, ram) ==> f == CpuCount(cpu) || f == MemoryMB(ram)
    ensures cpu != 0 && ram != 0 ==> CreateFlags(cpu, ram) == [CpuCount(cpu), MemoryMB(ram)]
  {
  }

  /** What follows a successful existence check: create, enable services, start, wait, refresh. */
  function DeploySteps(template: string, hostGroup: string, vm: string, timeout: int, cpu: int, ram: int): seq<Command> {
    [ CreateFromTemplate(template, hostGroup, vm, CreateFlags(cpu, ram)),
      EnableServices(vm),
      StartVm(vm),
      WaitVmRunning(vm, timeout),
      ReadVm(vm) ]
  }

  /**
    * Whatever the replies, a deployment creates the VM once, as its first action,
    * and a wait that times out ends it after exactly create, enable and start.
    */
  lemma DeployCreatesOnce(remote: Remote, h: seq<Command>, template: string, hostGroup: string,
                          vm: string, timeout: int, cpu: int, ram: int)
    ensures var cs := DeploySteps(template, hostGroup, vm, timeout, cpu, ram);
      var r := Steps(remote, h, cs);
      && |r.sent| > 0 && r.sent[0].CreateFromTemplate?
      && (forall j :: 0 < j < |r.sent| ==> !r.sent[j].CreateFromTemplate?)
      && (r.failure == Some(ActionFailed(WaitVmRunning(vm, timeout))) ==> r.sent == cs[..4])
  {
    var cs := DeploySteps(template, hostGroup, vm, timeout, cpu, ram);
    StepsCharacterized(remote, h, cs);
    var r := Steps(remote, h, cs);
    if r.failure == Some(ActionFailed(WaitVmRunning(vm, timeout))) {
      var k := |r.sent| - 1;
      assert StepFailure(cs[k], remote(h + cs[..k], cs[k])) == ActionFailed(WaitVmRunning(vm, timeout));
      assert k == 3;
    }
  }

  /////////////////////////////////////////////////////////////////////////////
  // disconnect_dvd_drives

  /** `n` rounds of the loop body: the data query, then one drive removal. */
  function DvdRounds(vm: string, n: nat): seq<Command> {
    if n == 0 then [] else DvdRounds(vm, n - 1) + [GetVmXml(vm), RemoveDvd(vm)]
  }

  /** The number of drive removals for `vm` in a log. */
  function Removals(log: seq<Command>, vm: string): nat {
    multiset(log)[RemoveDvd(vm)]
  }

  /** The count of loop rounds is the count of removals they issue. */
  lemma {:induction false} RoundsRemovals(vm: string, n: nat)
    ensures Removals(DvdRounds(vm, n), vm) == n
  {
    if n > 0 {
      RoundsRemovals(vm, n - 1);
      assert multiset(DvdRounds(vm, n)) == multiset(DvdRounds(vm, n - 1)) + multiset([GetVmXml(vm), RemoveDvd(vm)]);
    }
  }

  /** After `n` rounds on top of `h`, one more query and removal make round `n + 1`. */
  lemma RoundLog(h: seq<Command>, vm: string, n: nat)
    ensures h + DvdRounds(vm, n) + [GetVmXml(vm), RemoveDvd(vm)] == h + DvdRounds(vm, n + 1)
  {
    var d := DvdRounds(vm, n);
    assert DvdRounds(vm, n + 1) == d + [GetVmXml(vm), RemoveDvd(vm)];
    assert h + d + [GetVmXml(vm), RemoveDvd(vm)] == h + (d + [GetVmXml(vm), RemoveDvd(vm)]);
  }

  /** After `n` rounds on top of `h`, with or without the final query, `n` removals have been added. */
  lemma RoundCount(h: seq<Command>, vm: string, n: nat)
    ensures Removals(h + DvdRounds(vm, n), vm) == Removals(h, vm) + n
    ensures Removals(h + DvdRounds(vm, n) + [GetVmXml(vm)], vm) == Removals(h, vm) + n
  {
    var d := DvdRounds(vm, n);
    RoundsRemovals(vm, n);
    assert multiset(h + d) == multiset(h) + multiset(d);
    assert multiset(h + d + [GetVmXml(vm)]) == multiset(h + d) + multiset([GetVmXml(vm)]);
  }

  /** The loop issues only queries and removals. */
  lemma {:induction false} RoundsArePlain(vm: string, n: nat)
    ensures forall j :: 0 <= j < |DvdRounds(vm, n)| ==>
      DvdRounds(vm, n)[j] == GetVmXml(vm) || DvdRounds(vm, n)[j] == RemoveDvd(vm)
  {
    if n > 0 {
      RoundsArePlain(vm, n - 1);
    }
  }
}
