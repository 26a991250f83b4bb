/**
  * `SCVMMSystem` and `SCVM` (wrapanapi/systems/scvmm.py) over a recording
  * session: every script and every base-class action is appended to the
  * session's log, and the reply is whatever the remote side answers given
  * the log so far.
  */
module Scvmm {
  import opened Wrappers
  import opened Text
  import PropertyTree
  import opened VmStates
  import opened Commands

  /** The WinRM session: it records what is sent and answers from the remote side. */
  class Session {
    var log: seq<Command>
    const remote: Remote

    constructor (remote: Remote)
      ensures log == [] && this.remote == remote
    {
      log := [];
      this.remote := remote;
    }

    /** `winrm.Session.run_ps`, and each base-class action. */
    method Send(c: Command) returns (rep: Reply)
      modifies this
      ensures log == old(log) + [c] && rep == remote(old(log), c)
    {
      rep := remote(log, c);
      log := log + [c];
    }
  }

  /////////////////////////////////////////////////////////////////////////////
  // What each reply means to the adapter

  /** `run_script`: a non-zero status raises with the status and stderr, otherwise the stripped stdout. */
  function ScriptOutput(rep: Reply): (r: Result<string, Failure>)
    ensures r.Ok? <==> rep.status == 0
    ensures r.Err? ==> r.error == ScriptError(rep.status, rep.stderr)
    ensures r.Ok? ==> (r.value == [] <==> IsBlank(rep.stdout))
    ensures r.Ok? && r.value != [] ==> !IsSpace(r.value[0]) && !IsSpace(r.value[|r.value| - 1])
  {
    if rep.status != 0 then Err(ScriptError(rep.status, rep.stderr)) else Ok(Strip(rep.stdout))
  }

  /** A base-class action: a failing reply raises; `is_suspended`'s answer is a non-blank reply. */
  function ActionOutcome(c: Command, rep: Reply): Result<bool, Failure> {
    if rep.status != 0 then Err(ActionFailed(c)) else Ok(!IsBlank(rep.stdout))
  }

  /** A script whose output is discarded: it either raises or the caller goes on. */
  function Acknowledged(rep: Reply): Result<bool, Failure> {
    match ScriptOutput(rep)
    case Err(e) => Err(e)
    case Ok(_) => Ok(true)
  }

  /** `SCVM.exists` and `does_template_exist`: the stripped output, stripped again, is not empty. */
  function Existence(rep: Reply): Result<bool, Failure> {
    match ScriptOutput(rep)
    case Err(e) => Err(e)
    case Ok(s) => Ok(Strip(s) != [])
  }

  /** The answer is yes exactly when the lookup succeeded and printed something other than whitespace. */
  lemma ExistenceIffNonBlank(rep: Reply, b: bool)
    ensures Existence(rep) == Ok(b) <==> rep.status == 0 && b == !IsBlank(rep.stdout)
    ensures Existence(rep).Err? <==> rep.status != 0
  {
    if rep.status == 0 {
      var out := Strip(rep.stdout);
      StripIdempotent(rep.stdout);
      assert Existence(rep) == Ok(Strip(out) != []);
      assert (Strip(out) == []) == IsBlank(rep.stdout);
    }
  }

  /** `etree.fromstring(output).xpath("./Object/Property[@Name='field']/text()")`. */
  function Selection(rep: Reply, parse: string -> Option<PropertyTree.Element>, field: string): Result<seq<string>, Failure> {
    match ScriptOutput(rep)
    case Err(e) => Err(e)
    case Ok(out) =>
      match parse(out)
      case None => Err(XmlSyntax)
      case Some(root) => Ok(PropertyTree.FieldTexts(root, field))
  }

  /** A selected text is the text of a property by that name, held by one of the root's objects, and vice versa. */
  lemma SelectionMembers(rep: Reply, parse: string -> Option<PropertyTree.Element>, field: string, t: string)
    requires Selection(rep, parse, field).Ok?
    ensures var root := parse(Strip(rep.stdout)).value;
      t in Selection(rep, parse, field).value <==>
        exists i, j :: 0 <= i < |root.children| && 0 <= j < |root.children[i].children| &&
          root.children[i].tag == "Object" &&
          PropertyTree.Selected(root.children[i].children[j], field) &&
          root.children[i].children[j].text == Some(t)
  {
    PropertyTree.FieldTextsMembers(parse(Strip(rep.stdout)).value, field, t);
  }

  /** `vm_status`: the first `StatusString` text; `[0]` of nothing raises. */
  function StatusOf(rep: Reply, parse: string -> Option<PropertyTree.Element>): (r: Result<string, Failure>)
    ensures r.Ok? ==> var s := Selection(rep, parse, "StatusString"); s.Ok? && s.value != [] && r.value == s.value[0]
    ensures r.Err? ==> Selection(rep, parse, "StatusString").Err? || r.error == NoElement
  {
    match Selection(rep, parse, "StatusString")
    case Err(e) => Err(e)
    case Ok(ts) => if ts == [] then Err(NoElement) else Ok(ts[0])
  }

  /** `data`: the first `Object` of the parsed output, deserialized as a data holder dictionary. */
  function DataOf(rep: Reply, parse: string -> Option<PropertyTree.Element>): Result<PropertyTree.Value, Failure> {
    match ScriptOutput(rep)
    case Err(e) => Err(e)
    case Ok(out) =>
      match parse(out)
      case None => Err(XmlSyntax)
      case Some(root) =>
        match PropertyTree.FirstObject(root)
        case None => Err(NoElement)
        case Some(obj) =>
          match PropertyTree.DictOf(obj)
          case Err(e) => Err(Malformed(e))
          case Ok(v) => Ok(v)
  }

  /** The data of a VM is always a record, keyed by the names of the object's properties. */
  lemma DataIsRecord(rep: Reply, parse: string -> Option<PropertyTree.Element>)
    requires DataOf(rep, parse).Ok?
    ensures DataOf(rep, parse).value.Record?
    ensures var obj := PropertyTree.FirstObject(parse(Strip(rep.stdout)).value).value;
      DataOf(rep, parse).value.fields.Keys == PropertyTree.NamesUpTo(obj, |obj.children|)
  {
    var obj := PropertyTree.FirstObject(parse(Strip(rep.stdout)).value).value;
    PropertyTree.DictFoldKeys(obj, |obj.children|);
  }

  /** `self.data(vm).VirtualDVDDrives is not None`; a record without the attribute raises. */
  function DvdProbe(rep: Reply, parse: string -> Option<PropertyTree.Element>): Result<bool, Failure> {
    match DataOf(rep, parse)
    case Err(e) => Err(e)
    case Ok(v) =>
      if v.Record? && "VirtualDVDDrives" in v.fields then Ok(v.fields["VirtualDVDDrives"] != PropertyTree.Null)
      else Err(NoAttribute("VirtualDVDDrives"))
  }

  /** The probe answers exactly when the data has the attribute, and says yes exactly when it is not `None`. */
  lemma DvdProbeMeaning(rep: Reply, parse: string -> Option<PropertyTree.Element>)
    ensures DvdProbe(rep, parse).Ok? <==> DataOf(rep, parse).Ok? && "VirtualDVDDrives" in DataOf(rep, parse).value.fields
    ensures DvdProbe(rep, parse) == Ok(true) <==>
      DataOf(rep, parse).Ok? && "VirtualDVDDrives" in DataOf(rep, parse).value.fields &&
      DataOf(rep, parse).value.fields["VirtualDVDDrives"] != PropertyTree.Null
  {
    if DataOf(rep, parse).Ok? {
      DataIsRecord(rep, parse);
    }
  }

  /** `current_ip_address`: the adapter listing with every brace deleted. */
  function Addresses(rep: Reply): (r: Result<string, Failure>)
    ensures r.Ok? <==> rep.status == 0
    ensures r.Ok? ==> NoBraces(r.value) && |r.value| <= |Strip(rep.stdout)|
    ensures r.Ok? ==> r.value == DeleteBraces(Strip(rep.stdout))
  {
    match ScriptOutput(rep)
    case Err(e) => Err(e)
    case Ok(out) => Ok(DeleteBraces(out))
  }

  /** A listing without braces comes back as printed, stripped; reading it twice gives the same text. */
  lemma AddressesKeepText(rep: Reply)
    requires rep.status == 0
    ensures NoBraces(Strip(rep.stdout)) ==> Addresses(rep) == Ok(Strip(rep.stdout))
    ensures DeleteBraces(Addresses(rep).value) == Addresses(rep).value
  {
    if NoBraces(Strip(rep.stdout)) {
      DeleteBracesKeepsOthers(Strip(rep.stdout));
    }
    DeleteBracesIdempotent(Strip(rep.stdout));
  }

  /**
    * The listing PowerShell prints for one address, `{10.0.0.1}` with
    * whitespace around it, comes back as the bare address.
    */
  lemma AddressesUnwrap(rep: Reply, lead: string, address: string, trail: string)
    requires rep.status == 0 && rep.stdout == lead + "{" + address + "}" + trail
    requires IsBlank(lead) && IsBlank(trail) && NoBraces(address)
    ensures Addresses(rep) == Ok(address)
  {
    assert rep.stdout == lead + ("{" + address + "}") + trail;
    StripPadded(lead, "{" + address + "}", trail);
    DeleteBracesUnwraps(address);
  }

  /**
    * One round of the `disconnect_dvd_drives` loop after the history `h`: the
    * probe, then, when it shows a drive, one removal, whose failure raises.
    * `Ok(true)` is a drive removed, `Ok(false)` the end of the loop.
    */
  function RoundOutcome(remote: Remote, parse: string -> Option<PropertyTree.Element>, vm: string, h: seq<Command>): Result<bool, Failure> {
    var probe := DvdProbe(remote(h, GetVmXml(vm)), parse);
    if probe != Ok(true) then probe
    else
      match ScriptOutput(remote(h + [GetVmXml(vm)], RemoveDvd(vm)))
      case Err(e) => Err(e)
      case Ok(_) => Ok(true)
  }

  /** The actions that round sends: the data query, and the removal when a drive is shown. */
  function RoundSent(remote: Remote, parse: string -> Option<PropertyTree.Element>, vm: string, h: seq<Command>): seq<Command> {
    if DvdProbe(remote(h, GetVmXml(vm)), parse) == Ok(true) then [GetVmXml(vm), RemoveDvd(vm)] else [GetVmXml(vm)]
  }

  /** The outcome of round `k` of the loop started after the history `h`. */
  function RoundAfter(remote: Remote, parse: string -> Option<PropertyTree.Element>, vm: string, h: seq<Command>, k: nat): Result<bool, Failure> {
    RoundOutcome(remote, parse, vm, h + DvdRounds(vm, k))
  }

  /**
    * A round removes a drive exactly when the probe shows one and the removal
    * is accepted, ends the loop exactly when the probe shows none, and
    * otherwise raises the probe's error or the removal's script error.
    */
  lemma RoundOutcomeMeaning(remote: Remote, parse: string -> Option<PropertyTree.Element>, vm: string, h: seq<Command>)
    ensures var probe := DvdProbe(remote(h, GetVmXml(vm)), parse);
      var removal := remote(h + [GetVmXml(vm)], RemoveDvd(vm));
      var r := RoundOutcome(remote, parse, vm, h);
      && (r == Ok(true) <==> probe == Ok(true) && removal.status == 0)
      && (r == Ok(false) <==> probe == Ok(false))
      && (r.Err? && probe.Err? ==> r == probe)
      && (r.Err? && probe.Ok? ==> probe.value && r.error == ScriptError(removal.status, removal.stderr))
  {
  }

  /** The first `n` rounds after `h` each found a drive and had its removal accepted. */
  predicate AcceptedRounds(remote: Remote, parse: string -> Option<PropertyTree.Element>, vm: string, h: seq<Command>, n: nat) {
    forall k: nat :: k < n ==> RoundAfter(remote, parse, vm, h, k) == Ok(true)
  }

  /** One more accepted round extends the accepted rounds. */
  lemma AcceptedStep(remote: Remote, parse: string -> Option<PropertyTree.Element>, vm: string, h: seq<Command>, n: nat)
    requires AcceptedRounds(remote, parse, vm, h, n)
    requires RoundAfter(remote, parse, vm, h, n) == Ok(true)
    ensures AcceptedRounds(remote, parse, vm, h, n + 1)
  {
  }

  /**
    * The replies fix the count: accepted rounds followed by a probe without
    * a drive happen for one number of rounds only.
    */
  lemma DrainCountUnique(remote: Remote, parse: string -> Option<PropertyTree.Element>, vm: string, h: seq<Command>, n1: nat, n2: nat)
    requires AcceptedRounds(remote, parse, vm, h, n1) && RoundAfter(remote, parse, vm, h, n1) == Ok(false)
    requires AcceptedRounds(remote, parse, vm, h, n2) && RoundAfter(remote, parse, vm, h, n2) == Ok(false)
    ensures n1 == n2
  {
  }

  /** A round that shows no drive sends only the data query. */
  lemma DrainEndsOk(remote: Remote, parse: string -> Option<PropertyTree.Element>, vm: string, h: seq<Command>,
                    count: nat, log: seq<Command>)
    requires AcceptedRounds(remote, parse, vm, h, count)
    requires RoundAfter(remote, parse, vm, h, count) == Ok(false)
    requires log == h + DvdRounds(vm, count) + RoundSent(remote, parse, vm, h + DvdRounds(vm, count))
    ensures DrainedIn(remote, parse, vm, h, count, log)
  {
  }

  /**
    * The loop ended after `n` rounds: each found a drive and had its removal
    * accepted, the probe after them shows no drive, and `log` holds exactly
    * those rounds and the final probe.
    */
  predicate DrainedIn(remote: Remote, parse: string -> Option<PropertyTree.Element>, vm: string, h: seq<Command>,
                      n: nat, log: seq<Command>) {
    && AcceptedRounds(remote, parse, vm, h, n)
    && RoundAfter(remote, parse, vm, h, n) == Ok(false)
    && log == h + DvdRounds(vm, n) + [GetVmXml(vm)]
  }

  /**
    * The loop raised in round `n`: the `n` rounds before it were accepted,
    * round `n` raised `e`, and `log` holds those rounds and what round `n` sent.
    */
  predicate FailedAt(remote: Remote, parse: string -> Option<PropertyTree.Element>, vm: string, h: seq<Command>,
                     n: nat, log: seq<Command>, e: Failure) {
    && AcceptedRounds(remote, parse, vm, h, n)
    && RoundAfter(remote, parse, vm, h, n) == Err(e)
    && log == h + DvdRounds(vm, n) + RoundSent(remote, parse, vm, h + DvdRounds(vm, n))
  }

  /**
    * The loop's requirement, on the rounds of this call after the history
    * `h`: once `drives` rounds have all found a drive and had their removals
    * accepted, the next round does not remove another. A round that raises
    * or finds no drive meets it, so a manager that refuses a removal is
    * admitted; `DrivesDrainIffLoopEnds` shows it excludes exactly the
    * managers on which the source's loop never ends.
    */
  ghost predicate DrivesDrain(remote: Remote, parse: string -> Option<PropertyTree.Element>, vm: string, drives: nat,
                              h: seq<Command>) {
    forall k: nat :: k >= drives && AcceptedRounds(remote, parse, vm, h, k) ==>
      RoundAfter(remote, parse, vm, h, k) != Ok(true)
  }

  /** The loop started after `h` ends: some round, after accepted ones, raises or finds no drive. */
  ghost predicate LoopEnds(remote: Remote, parse: string -> Option<PropertyTree.Element>, vm: string, h: seq<Command>) {
    exists n: nat :: AcceptedRounds(remote, parse, vm, h, n) && RoundAfter(remote, parse, vm, h, n) != Ok(true)
  }

  /** Either `p` holds below `n`, or some `m < n` is the first number where it fails. */
  lemma {:induction false} FirstFailure(p: nat -> bool, n: nat)
    ensures (forall k: nat :: k < n ==> p(k)) || exists m: nat :: m < n && !p(m) && forall k: nat :: k < m ==> p(k)
  {
    if n > 0 {
      FirstFailure(p, n - 1);
      if !p(n - 1) && forall k: nat :: k < n - 1 ==> p(k) {
        assert n - 1 < n && !p(n - 1);
      }
    }
  }

  /** A bound for which `DrivesDrain` holds makes the loop end. */
  lemma DrainsThenEnds(remote: Remote, parse: string -> Option<PropertyTree.Element>, vm: string, h: seq<Command>, d: nat)
    requires DrivesDrain(remote, parse, vm, d, h)
    ensures LoopEnds(remote, parse, vm, h)
  {
    var p := (k: nat) => RoundAfter(remote, parse, vm, h, k) == Ok(true);
    FirstFailure(p, d);
    var m: nat := d;
    if !forall k: nat :: k < d ==> p(k) {
      m :| m < d && !p(m) && forall k: nat :: k < m ==> p(k);
    }
    forall k: nat | k < m
      ensures RoundAfter(remote, parse, vm, h, k) == Ok(true)
    {
      assert p(k);
    }
    assert m < d ==> !p(m);
    assert AcceptedRounds(remote, parse, vm, h, m);
  }

  /** A loop that ends after `n` accepted rounds meets `DrivesDrain` with the bound `n`. */
  lemma EndsThenDrains(remote: Remote, parse: string -> Option<PropertyTree.Element>, vm: string, h: seq<Command>, n: nat)
    requires AcceptedRounds(remote, parse, vm, h, n) && RoundAfter(remote, parse, vm, h, n) != Ok(true)
    ensures DrivesDrain(remote, parse, vm, n, h)
  {
    forall k: nat | k >= n && AcceptedRounds(remote, parse, vm, h, k)
      ensures RoundAfter(remote, parse, vm, h, k) != Ok(true)
    {
      assert k > n ==> RoundAfter(remote, parse, vm, h, n) == Ok(true);
    }
  }

  /** Some bound makes `DrivesDrain` hold exactly when the loop ends. */
  lemma DrivesDrainIffLoopEnds(remote: Remote, parse: string -> Option<PropertyTree.Element>, vm: string, h: seq<Command>)
    ensures (exists d: nat :: DrivesDrain(remote, parse, vm, d, h)) <==> LoopEnds(remote, parse, vm, h)
  {
    if d: nat :| DrivesDrain(remote, parse, vm, d, h) {
      DrainsThenEnds(remote, parse, vm, h, d);
    }
    if LoopEnds(remote, parse, vm, h) {
      var n: nat :| AcceptedRounds(remote, parse, vm, h, n) && RoundAfter(remote, parse, vm, h, n) != Ok(true);
      EndsThenDrains(remote, parse, vm, h, n);
    }
  }

  /**
    * The state of the `disconnect_dvd_drives` loop after `count` rounds on
    * top of the history `h`: `log` holds those rounds, each was accepted,
    * and under `DrivesDrain` the count stays within the bound.
    */
  predicate Draining(remote: Remote, parse: string -> Option<PropertyTree.Element>, vm: string, drives: nat,
                     h: seq<Command>, count: nat, log: seq<Command>) {
    && log == h + DvdRounds(vm, count)
    && AcceptedRounds(remote, parse, vm, h, count)
    && count <= drives
  }

  /** A round that removed a drive extends the loop's state by one accepted round, within the bound. */
  lemma RoundAdvance(remote: Remote, parse: string -> Option<PropertyTree.Element>, vm: string, drives: nat,
                     h: seq<Command>, count: nat, log: seq<Command>)
    requires DrivesDrain(remote, parse, vm, drives, h)
    requires AcceptedRounds(remote, parse, vm, h, count)
    requires RoundAfter(remote, parse, vm, h, count) == Ok(true)
    requires log == h + DvdRounds(vm, count) + RoundSent(remote, parse, vm, h + DvdRounds(vm, count))
    ensures Draining(remote, parse, vm, drives, h, count + 1, log)
    ensures count < drives
  {
    RoundLog(h, vm, count);
    AcceptedStep(remote, parse, vm, h, count);
  }

  /** Under `DrivesDrain`, there are never more accepted rounds than the bound. */
  lemma AcceptedRoundsBound(remote: Remote, parse: string -> Option<PropertyTree.Element>, vm: string, drives: nat,
                            h: seq<Command>, n: nat)
    requires DrivesDrain(remote, parse, vm, drives, h)
    requires AcceptedRounds(remote, parse, vm, h, n)
    ensures n <= drives
  {
    assert n > drives ==> AcceptedRounds(remote, parse, vm, h, drives) && RoundAfter(remote, parse, vm, h, drives) == Ok(true);
  }

  /**
    * A manager that refuses the removal while the drive is still shown: the
    * loop raises the removal's script error in its first round, and
    * `DrivesDrain` holds for every bound.
    */
  lemma RefusedRemovalAdmitted(remote: Remote, parse: string -> Option<PropertyTree.Element>, vm: string,
                               h: seq<Command>, drives: nat)
    requires DvdProbe(remote(h, GetVmXml(vm)), parse) == Ok(true)
    requires remote(h + [GetVmXml(vm)], RemoveDvd(vm)).status != 0
    ensures var rep := remote(h + [GetVmXml(vm)], RemoveDvd(vm));
      RoundAfter(remote, parse, vm, h, 0) == Err(ScriptError(rep.status, rep.stderr))
    ensures DrivesDrain(remote, parse, vm, drives, h)
  {
    assert h + DvdRounds(vm, 0) == h;
    forall k: nat | k >= drives && AcceptedRounds(remote, parse, vm, h, k)
      ensures RoundAfter(remote, parse, vm, h, k) != Ok(true)
    {
      assert k > 0 ==> RoundAfter(remote, parse, vm, h, 0) == Ok(true);
    }
  }

  /////////////////////////////////////////////////////////////////////////////

  /** `SCVMMSystem`: the manager, reached through one session. */
  class System {
    const api: Session
    /** `lxml.etree.fromstring`, `None` for text that is not XML. */
    const parse: string -> Option<PropertyTree.Element>

    constructor (api: Session, parse: string -> Option<PropertyTree.Element>)
      requires WellSequenced(api.remote, api.log)
      ensures this.api == api && this.parse == parse
      ensures Valid()
    {
      this.api := api;
      this.parse := parse;
    }

    /** Every mutation followed its stop guard, every accepted template change its library refresh. */
    ghost predicate Valid()
      reads api
    {
      WellSequenced(api.remote, api.log)
    }

    /** `run_script`. */
    method RunScript(c: Command) returns (r: Result<string, Failure>)
      requires IsScript(c)
      modifies api
      ensures api.log == old(api.log) + [c]
      ensures r == ScriptOutput(api.remote(old(api.log), c))
    {
      var rep := api.Send(c);
      r := ScriptOutput(rep);
    }

    /** An action of a base class (`ensure_state`, `is_suspended`, `refresh`, `start_vm`, `wait_vm_running`). */
    method Perform(c: Command) returns (r: Result<bool, Failure>)
      requires !IsScript(c)
      modifies api
      ensures api.log == old(api.log) + [c]
      ensures r == ActionOutcome(c, api.remote(old(api.log), c))
    {
      var rep := api.Send(c);
      r := ActionOutcome(c, rep);
    }

    /** `does_template_exist`. */
    method DoesTemplateExist(template: string) returns (r: Result<bool, Failure>)
      requires Valid()
      modifies api
      ensures Valid()
      ensures api.log == old(api.log) + [GetTemplate(template)]
      ensures r == Existence(api.remote(old(api.log), GetTemplate(template)))
    {
      PlainAppend(api.remote, api.log, GetTemplate(template));
      var out := RunScript(GetTemplate(template));
      if out.Err? {
        return Err(out.error);
      }
      return Ok(Strip(out.value) != []);
    }

    /** `delete_template`: remove and refresh the library when the template exists, otherwise nothing. */
    method DeleteTemplate(template: string) returns (r: Result<(), Failure>)
      requires Valid()
      modifies api
      ensures Valid()
      ensures var h := old(api.log);
        var q := GetTemplate(template);
        var found := Existence(api.remote(h, q));
        if found.Err? then api.log == h + [q] && r == Err(found.error)
        else if !found.value then api.log == h + [q] && r == Ok(())
        else
          var run := Steps(api.remote, h + [q], TemplatePlan(RemoveTemplate(template)));
          api.log == h + [q] + run.sent && r == Outcome(run, ())
    {
      var found := DoesTemplateExist(template);
      if found.Err? {
        return Err(found.error);
      }
      if !found.value {
        return Ok(());
      }
      r := ChangeTemplate(RemoveTemplate(template));
    }

    /** `mark_as_template`: create the template from the VM, then refresh the library. */
    method MarkAsTemplate(vm: string, library: string, share: string) returns (r: Result<(), Failure>)
      requires Valid()
      modifies api
      ensures Valid()
      ensures var run := Steps(api.remote, old(api.log), TemplatePlan(NewTemplate(vm, library, share)));
        api.log == old(api.log) + run.sent && r == Outcome(run, ())
    {
      r := ChangeTemplate(NewTemplate(vm, library, share));
    }

    /** A template change followed by `update_scvmm_library`. */
    method ChangeTemplate(change: Command) returns (r: Result<(), Failure>)
      requires Valid() && TemplateChange(change)
      modifies api
      ensures Valid()
      ensures var run := Steps(api.remote, old(api.log), TemplatePlan(change));
        api.log == old(api.log) + run.sent && r == Outcome(run, ())
    {
      ghost var h := api.log;
      var plan := TemplatePlan(change);
      StepsKeepOrder(api.remote, h, plan);
      WholePlan(h, plan);
      var done := Step(h, plan, 0);
      if done.Err? {
        return Err(done.error);
      }
      done := Step(h, plan, 1);
      if done.Err? {
        return Err(done.error);
      }
      return Ok(());
    }

    /** `deploy_template`: refuse a missing template, otherwise create, enable, start, wait and refresh. */
    method DeployTemplate(template: string, hostGroup: string, vmName: string,
                          timeout: Option<int>, cpu: Option<int>, ram: Option<int>)
      returns (r: Result<string, Failure>)
      requires Valid()
      modifies api
      ensures Valid()
      ensures var h := old(api.log);
        var q := GetTemplate(template);
        var found := Existence(api.remote(h, q));
        if found.Err? then api.log == h + [q] && r == Err(found.error)
        else if !found.value then api.log == h + [q] && r == Err(TemplateMissing(template))
        else
          var plan := DeploySteps(template, hostGroup, vmName, timeout.GetOr(DefaultTimeout), cpu.GetOr(0), ram.GetOr(0));
          var run := Steps(api.remote, h + [q], plan);
          api.log == h + [q] + run.sent && r == Outcome(run, vmName)
    {
      var found := DoesTemplateExist(template);
      if found.Err? {
        return Err(found.error);
      }
      if !found.value {
        return Err(TemplateMissing(template));
      }
      r := Provision(template, hostGroup, vmName, timeout.GetOr(DefaultTimeout), cpu.GetOr(0), ram.GetOr(0));
    }

    /** The `else` branch of `deploy_template`, once the template is known to exist. */
    method Provision(template: string, hostGroup: string, vmName: string, wait: int, cpuCount: int, memory: int)
      returns (r: Result<string, Failure>)
      requires Valid()
      modifies api
      ensures Valid()
      ensures var run := Steps(api.remote, old(api.log), DeploySteps(template, hostGroup, vmName, wait, cpuCount, memory));
        api.log == old(api.log) + run.sent && r == Outcome(run, vmName)
    {
      ghost var h := api.log;
      var plan := DeploySteps(template, hostGroup, vmName, wait, cpuCount, memory);
      StepsKeepOrder(api.remote, h, plan);
      WholePlan(h, plan);
      var done := Step(h, plan, 0);
      if done.Err? {
        return Err(done.error);
      }
      done := Step(h, plan, 1);
      if done.Err? {
        return Err(done.error);
      }
      done := Step(h, plan, 2);
      if done.Err? {
        return Err(done.error);
      }
      done := Step(h, plan, 3);
      if done.Err? {
        return Err(done.error);
      }
      done := Step(h, plan, 4);
      if done.Err? {
        return Err(done.error);
      }
      return Ok(vmName);
    }

    /**
      * Action `k` of a straight-line plan whose first `k` actions succeeded:
      * a script through `run_script`, an action of a base class directly.
      */
    method Step(ghost h: seq<Command>, plan: seq<Command>, k: nat) returns (r: Result<(), Failure>)
      requires k < |plan|
      requires api.log == h + plan[..k] && Steps(api.remote, h, plan[..k]) == Run(plan[..k], None)
      modifies api
      ensures api.log == h + plan[..k + 1]
      ensures r.Ok? ==> Steps(api.remote, h, plan[..k + 1]) == Run(plan[..k + 1], None)
      ensures r.Err? ==> Steps(api.remote, h, plan) == Run(plan[..k + 1], Some(r.error))
    {
      var c := plan[k];
      SplitAt(plan, k);
      StepsNext(api.remote, h, plan[..k], c, plan[k + 1..]);
      if IsScript(c) {
        var out := RunScript(c);
        r := if out.Err? then Err(out.error) else Ok(());
      } else {
        var out := Perform(c);
        r := if out.Err? then Err(out.error) else Ok(());
      }
    }

    /** `clone_vm`: the clone is always started. */
    method CloneVm(source: string, host: string, path: string, vmName: string) returns (r: Result<(), Failure>)
      requires Valid()
      modifies api
      ensures Valid()
      ensures var c := Command.CloneVm(source, host, path, vmName, true);
        && api.log == old(api.log) + [c]
        && (r.Ok? <==> api.remote(old(api.log), c).status == 0)
        && (r.Err? ==> r.error == StepFailure(c, api.remote(old(api.log), c)))
    {
      var c := Command.CloneVm(source, host, path, vmName, true);
      PlainAppend(api.remote, api.log, c);
      var out := RunScript(c);
      if out.Err? {
        return Err(out.error);
      }
      return Ok(());
    }

    /** `update_scvmm_virtualmachine`. */
    method UpdateScvmmVirtualMachine(vmName: string) returns (r: Result<(), Failure>)
      modifies api
      ensures WellSequenced(api.remote, old(api.log)) ==> Valid()
      ensures api.log == old(api.log) + [ReadVm(vmName)]
      ensures r.Ok? <==> api.remote(old(api.log), ReadVm(vmName)).status == 0
      ensures r.Err? ==> r.error == StepFailure(ReadVm(vmName), api.remote(old(api.log), ReadVm(vmName)))
    {
      r := Refresh(ReadVm(vmName));
    }

    /** `update_scvmm_vmhost`. */
    method UpdateScvmmVmhost(host: string) returns (r: Result<(), Failure>)
      modifies api
      ensures WellSequenced(api.remote, old(api.log)) ==> Valid()
      ensures api.log == old(api.log) + [ReadHost(host)]
      ensures r.Ok? <==> api.remote(old(api.log), ReadHost(host)).status == 0
      ensures r.Err? ==> r.error == StepFailure(ReadHost(host), api.remote(old(api.log), ReadHost(host)))
    {
      r := Refresh(ReadHost(host));
    }

    /** `update_scvmm_library`. */
    method UpdateScvmmLibrary() returns (r: Result<(), Failure>)
      modifies api
      ensures WellSequenced(api.remote, old(api.log)) ==> Valid()
      ensures api.log == old(api.log) + [ReadLibrary]
      ensures r.Ok? <==> api.remote(old(api.log), ReadLibrary).status == 0
      ensures r.Err? ==> r.error == StepFailure(ReadLibrary, api.remote(old(api.log), ReadLibrary))
    {
      r := Refresh(ReadLibrary);
    }

    /** One of the `Read-SC...` refresh scripts. */
    method Refresh(c: Command) returns (r: Result<(), Failure>)
      requires c.ReadVm? || c.ReadHost? || c.ReadLibrary?
      modifies api
      ensures WellSequenced(api.remote, old(api.log)) ==> Valid()
      ensures api.log == old(api.log) + [c]
      ensures r.Ok? <==> api.remote(old(api.log), c).status == 0
      ensures r.Err? ==> r.error == StepFailure(c, api.remote(old(api.log), c))
    {
      if WellSequenced(api.remote, api.log) {
        PlainAppend(api.remote, api.log, c);
      }
      var out := RunScript(c);
      if out.Err? {
        return Err(out.error);
      }
      return Ok(());
    }

    /** An XML listing and the texts of one property of its objects. */
    method Select(c: Command, field: string) returns (r: Result<seq<string>, Failure>)
      requires Valid() && (c.ListXml? || c.GetVmXml? || c.GetVmHostXml?)
      modifies api
      ensures Valid()
      ensures api.log == old(api.log) + [c]
      ensures r == Selection(api.remote(old(api.log), c), parse, field)
    {
      PlainAppend(api.remote, api.log, c);
      var out := RunScript(c);
      if out.Err? {
        return Err(out.error);
      }
      var root := parse(out.value);
      if root.None? {
        return Err(XmlSyntax);
      }
      return Ok(PropertyTree.FieldTexts(root.value, field));
    }

    /** `list_vm`: the names of all VMs. */
    method ListVm() returns (r: Result<seq<string>, Failure>)
      requires Valid()
      modifies api
      ensures Valid()
      ensures api.log == old(api.log) + [ListXml(AllVms)]
      ensures r == Selection(api.remote(old(api.log), ListXml(AllVms)), parse, "Name")
    {
      r := Select(ListXml(AllVms), "Name");
    }

    /** `list_hosts`. */
    method ListHosts() returns (r: Result<seq<string>, Failure>)
      requires Valid()
      modifies api
      ensures Valid()
      ensures api.log == old(api.log) + [ListXml(Hosts)]
      ensures r == Selection(api.remote(old(api.log), ListXml(Hosts)), parse, "Name")
    {
      r := Select(ListXml(Hosts), "Name");
    }

    /** `list_cluster`. */
    method ListCluster() returns (r: Result<seq<string>, Failure>)
      requires Valid()
      modifies api
      ensures Valid()
      ensures api.log == old(api.log) + [ListXml(Clusters)]
      ensures r == Selection(api.remote(old(api.log), ListXml(Clusters)), parse, "Name")
    {
      r := Select(ListXml(Clusters), "Name");
    }

    /** `list_template`. */
    method ListTemplate() returns (r: Result<seq<string>, Failure>)
      requires Valid()
      modifies api
      ensures Valid()
      ensures api.log == old(api.log) + [ListXml(Templates)]
      ensures r == Selection(api.remote(old(api.log), ListXml(Templates)), parse, "Name")
    {
      r := Select(ListXml(Templates), "Name");
    }

    /** `list_network`. */
    method ListNetwork() returns (r: Result<seq<string>, Failure>)
      requires Valid()
      modifies api
      ensures Valid()
      ensures api.log == old(api.log) + [ListXml(Networks)]
      ensures r == Selection(api.remote(old(api.log), ListXml(Networks)), parse, "Name")
    {
      r := Select(ListXml(Networks), "Name");
    }

    /** `get_vms_vmhost`: the `VMHost` texts of the VM's objects. */
    method GetVmsVmhost(vmName: string) returns (r: Result<seq<string>, Failure>)
      requires Valid()
      modifies api
      ensures Valid()
      ensures api.log == old(api.log) + [GetVmHostXml(vmName)]
      ensures r == Selection(api.remote(old(api.log), GetVmHostXml(vmName)), parse, "VMHost")
    {
      r := Select(GetVmHostXml(vmName), "VMHost");
    }

    /** `vm_status`: the VM's first `StatusString`. */
    method VmStatus(vmName: string) returns (r: Result<string, Failure>)
      requires Valid()
      modifies api
      ensures Valid()
      ensures api.log == old(api.log) + [GetVmXml(vmName)]
      ensures r == StatusOf(api.remote(old(api.log), GetVmXml(vmName)), parse)
    {
      var ts := Select(GetVmXml(vmName), "StatusString");
      if ts.Err? {
        return Err(ts.error);
      }
      if ts.value == [] {
        return Err(NoElement);
      }
      return Ok(ts.value[0]);
    }

    /** `data`: the VM's first object as a data holder dictionary. */
    method Data(vmName: string) returns (r: Result<PropertyTree.Value, Failure>)
      requires Valid()
      modifies api
      ensures Valid()
      ensures api.log == old(api.log) + [GetVmXml(vmName)]
      ensures r == DataOf(api.remote(old(api.log), GetVmXml(vmName)), parse)
    {
      PlainAppend(api.remote, api.log, GetVmXml(vmName));
      var out := RunScript(GetVmXml(vmName));
      if out.Err? {
        return Err(out.error);
      }
      var root := parse(out.value);
      if root.None? {
        return Err(XmlSyntax);
      }
      var obj := PropertyTree.FirstObject(root.value);
      if obj.None? {
        return Err(NoElement);
      }
      var holder := PropertyTree.BuildDict(obj.value);
      if holder.Err? {
        return Err(Malformed(holder.error));
      }
      return Ok(holder.value);
    }

    /** `current_ip_address`. */
    method CurrentIpAddress(vmName: string) returns (r: Result<string, Failure>)
      requires Valid()
      modifies api
      ensures Valid()
      ensures api.log == old(api.log) + [GetIpAddresses(vmName)]
      ensures r == Addresses(api.remote(old(api.log), GetIpAddresses(vmName)))
    {
      PlainAppend(api.remote, api.log, GetIpAddresses(vmName));
      var out := RunScript(GetIpAddresses(vmName));
      if out.Err? {
        return Err(out.error);
      }
      return Ok(DeleteBraces(out.value));
    }

    /**
      * `get_ip_address`: refresh the VM, read its addresses, and when they
      * hold something shaped like an address, read them again and return that.
      */
    method GetIpAddress(vmName: string) returns (r: Result<Option<string>, Failure>)
      requires Valid()
      modifies api
      ensures Valid()
      ensures var h := old(api.log);
        var u := ReadVm(vmName);
        var g := GetIpAddresses(vmName);
        if api.remote(h, u).status != 0 then
          api.log == h + [u] && r == Err(StepFailure(u, api.remote(h, u)))
        else
          var first := Addresses(api.remote(h + [u], g));
          if first.Err? then api.log == h + [u, g] && r == Err(first.error)
          else if !FindsAddress(first.value) then api.log == h + [u, g] && r == Ok(None)
          else
            var second := Addresses(api.remote(h + [u, g], g));
            api.log == h + [u, g, g] &&
            r == (if second.Err? then Err(second.error) else Ok(Some(second.value)))
    {
      ghost var h := api.log;
      ghost var u := ReadVm(vmName);
      ghost var g := GetIpAddresses(vmName);
      var done := UpdateScvmmVirtualMachine(vmName);
      if done.Err? {
        return Err(done.error);
      }
      assert api.log == h + [u];
      var first := CurrentIpAddress(vmName);
      AppendTwo(h, u, g);
      assert first == Addresses(api.remote(h + [u], g));
      if first.Err? {
        return Err(first.error);
      }
      if !FindsAddress(first.value) {
        return Ok(None);
      }
      var second := CurrentIpAddress(vmName);
      AppendThird(h, u, g, g);
      assert second == Addresses(api.remote(h + [u, g], g));
      if second.Err? {
        return Err(second.error);
      }
      return Ok(Some(second.value));
    }

    /** The probe of `disconnect_dvd_drives`: whether the VM's data shows a DVD drive. */
    method HasDvdDrive(vmName: string) returns (r: Result<bool, Failure>)
      requires Valid()
      modifies api
      ensures Valid()
      ensures api.log == old(api.log) + [GetVmXml(vmName)]
      ensures r == DvdProbe(api.remote(old(api.log), GetVmXml(vmName)), parse)
    {
      var data := Data(vmName);
      if data.Err? {
        return Err(data.error);
      }
      if !(data.value.Record? && "VirtualDVDDrives" in data.value.fields) {
        return Err(NoAttribute("VirtualDVDDrives"));
      }
      return Ok(data.value.fields["VirtualDVDDrives"] != PropertyTree.Null);
    }

    /** One `Remove-SCVirtualDVDDrive` of `disconnect_dvd_drives`. */
    method RemoveDvdDrive(vmName: string) returns (r: Result<string, Failure>)
      requires Valid()
      modifies api
      ensures Valid()
      ensures api.log == old(api.log) + [RemoveDvd(vmName)]
      ensures r == ScriptOutput(api.remote(old(api.log), RemoveDvd(vmName)))
    {
      PlainAppend(api.remote, api.log, RemoveDvd(vmName));
      r := RunScript(RemoveDvd(vmName));
    }

    /** One round of `disconnect_dvd_drives`: probe, and remove a drive when the probe shows one. */
    method DvdRound(vmName: string) returns (r: Result<bool, Failure>)
      requires Valid()
      modifies api
      ensures Valid()
      ensures r == RoundOutcome(api.remote, parse, vmName, old(api.log))
      ensures api.log == old(api.log) + RoundSent(api.remote, parse, vmName, old(api.log))
    {
      ghost var before := api.log;
      var present := HasDvdDrive(vmName);
      if present.Err? {
        return Err(present.error);
      }
      if !present.value {
        return Ok(false);
      }
      var out := RemoveDvdDrive(vmName);
      AppendTwo(before, GetVmXml(vmName), RemoveDvd(vmName));
      if out.Err? {
        return Err(out.error);
      }
      return Ok(true);
    }

    /**
      * `disconnect_dvd_drives`: while the VM's data shows a DVD drive, remove
      * one. The result is the number of rounds, each of which found a drive
      * and had its removal accepted, so it is the number of removals
      * (`RoundCount` counts them in the log); the probe after them shows no
      * drive. `drives` is a ghost bound on how many removals it takes until
      * the data shows none.
      */
    method DisconnectDvdDrives(vmName: string, ghost drives: nat) returns (r: Result<nat, Failure>)
      requires Valid() && DrivesDrain(api.remote, parse, vmName, drives, api.log)
      modifies api
      ensures Valid()
      ensures r.Ok? ==> DrainedIn(api.remote, parse, vmName, old(api.log), r.value, api.log)
      ensures r.Err? ==> exists n: nat :: FailedAt(api.remote, parse, vmName, old(api.log), n, api.log, r.error)
    {
      ghost var h := api.log;
      var count: nat := 0;
      assert h + DvdRounds(vmName, 0) == h;
      while true
        invariant Valid()
        invariant Draining(api.remote, parse, vmName, drives, h, count, api.log)
        decreases drives - count
      {
        var round := DvdRound(vmName);
        assert round == RoundAfter(api.remote, parse, vmName, h, count);
        if round.Err? {
          assert FailedAt(api.remote, parse, vmName, h, count, api.log, round.error);
          return Err(round.error);
        }
        if !round.value {
          DrainEndsOk(api.remote, parse, vmName, h, count, api.log);
          return Ok(count);
        }
        RoundAdvance(api.remote, parse, vmName, drives, h, count, api.log);
        count := count + 1;
      }
    }
  }

  /////////////////////////////////////////////////////////////////////////////

  /** `SCVM`: one VM of the manager, by name. */
  class Vm {
    const system: System
    var name: string

    constructor (system: System, name: string)
      ensures this.system == system && this.name == name
    {
      this.system := system;
      this.name := name;
    }

    /** `exists`. */
    method Exists() returns (r: Result<bool, Failure>)
      requires system.Valid()
      modifies system.api
      ensures system.Valid()
      ensures system.api.log == old(system.api.log) + [GetVm(name)]
      ensures r == Existence(system.api.remote(old(system.api.log), GetVm(name)))
    {
      PlainAppend(system.api.remote, system.api.log, GetVm(name));
      var out := system.RunScript(GetVm(name));
      if out.Err? {
        return Err(out.error);
      }
      return Ok(Strip(out.value) != []);
    }

    /** `_do_vm`: pipe the VM into `{action}-SCVirtualMachine {params}`; `True` unless it raises. */
    method DoAction(action: VmAction, params: VmParams) returns (r: Result<bool, Failure>)
      modifies system.api
      ensures system.api.log == old(system.api.log) + [DoVm(name, action, params)]
      ensures r == Acknowledged(system.api.remote(old(system.api.log), DoVm(name, action, params)))
    {
      var out := system.RunScript(DoVm(name, action, params));
      if out.Err? {
        return Err(out.error);
      }
      return Ok(true);
    }

    /** A power action: not a guarded mutation, so the orderings are kept. */
    method Power(action: VmAction, params: VmParams) returns (r: Result<bool, Failure>)
      requires system.Valid() && action != Remove && action != Set
      modifies system.api
      ensures system.Valid()
      ensures system.api.log == old(system.api.log) + [DoVm(name, action, params)]
      ensures r == Acknowledged(system.api.remote(old(system.api.log), DoVm(name, action, params)))
    {
      PlainAppend(system.api.remote, system.api.log, DoVm(name, action, params));
      r := DoAction(action, params);
    }

    /** `start`: resume a suspended VM, start any other. */
    method Start() returns (r: Result<bool, Failure>)
      requires system.Valid()
      modifies system.api
      ensures system.Valid()
      ensures var h := old(system.api.log);
        var q := IsSuspended(name);
        var suspended := ActionOutcome(q, system.api.remote(h, q));
        if suspended.Err? then system.api.log == h + [q] && r == Err(suspended.error)
        else
          var c := DoVm(name, if suspended.value then Resume else VmAction.Start, NoParams);
          system.api.log == h + [q, c] && r == Acknowledged(system.api.remote(h + [q], c))
    {
      PlainAppend(system.api.remote, system.api.log, IsSuspended(name));
      var suspended := system.Perform(IsSuspended(name));
      if suspended.Err? {
        return Err(suspended.error);
      }
      if suspended.value {
        r := Power(Resume, NoParams);
      } else {
        r := Power(VmAction.Start, NoParams);
      }
    }

    /** `stop`: `-Shutdown` when graceful, `-Force` otherwise. */
    method Stop(graceful: bool) returns (r: Result<bool, Failure>)
      requires system.Valid()
      modifies system.api
      ensures system.Valid()
      ensures var c := DoVm(name, VmAction.Stop, if graceful then Shutdown else Force);
        system.api.log == old(system.api.log) + [c] && r == Acknowledged(system.api.remote(old(system.api.log), c))
    {
      r := Power(VmAction.Stop, if graceful then Shutdown else Force);
    }

    /** `restart`. */
    method Restart() returns (r: Result<bool, Failure>)
      requires system.Valid()
      modifies system.api
      ensures system.Valid()
      ensures var c := DoVm(name, Reset, NoParams);
        system.api.log == old(system.api.log) + [c] && r == Acknowledged(system.api.remote(old(system.api.log), c))
    {
      r := Power(Reset, NoParams);
    }

    /** `suspend`. */
    method Suspend() returns (r: Result<bool, Failure>)
      requires system.Valid()
      modifies system.api
      ensures system.Valid()
      ensures var c := DoVm(name, VmAction.Suspend, NoParams);
        system.api.log == old(system.api.log) + [c] && r == Acknowledged(system.api.remote(old(system.api.log), c))
    {
      r := Power(VmAction.Suspend, NoParams);
    }

    /** `delete`: stop the VM, then remove it. */
    method Delete() returns (r: Result<bool, Failure>)
      requires system.Valid()
      modifies system.api
      ensures system.Valid()
      ensures var run := Steps(system.api.remote, old(system.api.log), DeletePlan(name));
        system.api.log == old(system.api.log) + run.sent && r == Outcome(run, true)
    {
      ghost var h := system.api.log;
      var plan := DeletePlan(name);
      StepsKeepOrder(system.api.remote, h, plan);
      WholePlan(h, plan);
      var done := system.Step(h, plan, 0);
      if done.Err? {
        return Err(done.error);
      }
      done := system.Step(h, plan, 1);
      if done.Err? {
        return Err(done.error);
      }
      return Ok(true);
    }

    /** `rename`: stop, set the new name, adopt it, then refresh under it. */
    method Rename(newName: string) returns (r: Result<(), Failure>)
      requires system.Valid()
      modifies this, system.api
      ensures system.Valid()
      ensures var run := Steps(system.api.remote, old(system.api.log), RenamePlan(old(name), newName));
        && system.api.log == old(system.api.log) + run.sent
        && r == Outcome(run, ())
        && name == (if Completed(run) >= 2 then newName else old(name))
    {
      ghost var h := system.api.log;
      var plan := RenamePlan(name, newName);
      StepsKeepOrder(system.api.remote, h, plan);
      WholePlan(h, plan);
      var done := system.Step(h, plan, 0);
      if done.Err? {
        return Err(done.error);
      }
      done := system.Step(h, plan, 1);
      if done.Err? {
        return Err(done.error);
      }
      name := newName;
      done := system.Step(h, plan, 2);
      if done.Err? {
        return Err(done.error);
      }
      return Ok(());
    }

    /** `clone`: copy this VM onto a host, started unless told otherwise, and return the copy. */
    method Clone(vmName: string, vmHost: string, path: string, startVm: bool) returns (r: Result<Vm, Failure>)
      requires system.Valid()
      modifies system.api
      ensures system.Valid()
      ensures var c := Command.CloneVm(name, vmHost, path, vmName, startVm);
        && system.api.log == old(system.api.log) + [c]
        && (r.Ok? <==> system.api.remote(old(system.api.log), c).status == 0)
        && (r.Err? ==> r.error == StepFailure(c, system.api.remote(old(system.api.log), c)))
        && (r.Ok? ==> fresh(r.value) && r.value.system == system && r.value.name == vmName)
    {
      var c := Command.CloneVm(name, vmHost, path, vmName, startVm);
      PlainAppend(system.api.remote, system.api.log, c);
      var out := system.RunScript(c);
      if out.Err? {
        return Err(out.error);
      }
      var copy := new Vm(system, vmName);
      return Ok(copy);
    }

    /** `enable_virtual_services`: enable the guest service interface, then refresh the VM. */
    method EnableVirtualServices() returns (r: Result<(), Failure>)
      requires system.Valid()
      modifies system.api
      ensures system.Valid()
      ensures var c := EnableServices(name);
        && system.api.log == old(system.api.log) + [c]
        && (r.Ok? <==> system.api.remote(old(system.api.log), c).status == 0)
        && (r.Err? ==> r.error == StepFailure(c, system.api.remote(old(system.api.log), c)))
    {
      PlainAppend(system.api.remote, system.api.log, EnableServices(name));
      var out := system.RunScript(EnableServices(name));
      if out.Err? {
        return Err(out.error);
      }
      return Ok(());
    }
  }
}
