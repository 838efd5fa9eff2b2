/**
 * `accetta` and `rifiuta` (blueprints/admin.py): the status of a VM request
 * moves from PENDING to READY, FAILED or REJECTED, and accepting provisions
 * a container on the hypervisor and records its access data.
 *
 * The hypervisor is a script of answers (`Hypervisor`), and `calls` is the
 * sequence of API calls made against it.  The database is `Store`: request
 * statuses and credential rows keyed by request id, plus the history of what
 * each commit wrote.
 */
module Provisioning {
  import opened Wrappers
  import opened Text
  import Ipv4
  import TaskWaiter
  import Discovery

  /** `VmRequest.status`. */
  datatype Status = Pending | Ready | Rejected | Failed

  /**
   * The `VmType` a request asks for, as `int(...)` reads each field: `None`
   * where the stored value is not an integer's text and `int` raises.
   */
  datatype VmTier = VmTier(cores: Option<int>, ram: Option<int>, templateVmid: Option<int>)

  /** A `VmCredentials` row. */
  datatype Credentials = Credentials(ipAddress: string, username: string, password: string, hostname: string)

  /** The application settings `accetta` reads; `None` where the key is missing. */
  datatype Config = Config(node: Option<string>, vmUsername: Option<string>, vmPassword: Option<string>)

  /** One hypervisor API call. */
  datatype Call =
    | NextId                                                          // cluster.nextid.get
    | Clone(node: string, template: int, newid: int, hostname: string) // lxc(template).clone.post
    | TaskStatusGet(node: string, upid: string)                       // tasks(upid).status.get
    | ConfigPut(node: string, vmid: int, cores: int, memory: int, hostname: string)
    | StartPost(node: string, vmid: int)                              // lxc(vmid).status.start.post
    | InterfacesGet(node: string, vmid: int)                          // lxc(vmid).interfaces.get

  /**
   * The hypervisor's answers: whether a client can be built, the next free
   * id, the task ids of clone and start (`None` where the call raises), the
   * replies to each task's status polls, whether the config update goes
   * through, and the replies to the interface polls.
   */
  datatype Hypervisor = Hypervisor(
    clientOk: bool,
    nextId: Option<int>,
    cloneUpid: Option<string>,
    clonePolls: seq<TaskWaiter.TaskReply>,
    configOk: bool,
    startUpid: Option<string>,
    startPolls: seq<TaskWaiter.TaskReply>,
    ifacePolls: seq<Discovery.InterfacesReply>)

  /** The container a successful provisioning yields. */
  datatype Vm = Vm(vmid: int, hostname: string, ip: string)

  datatype HvRun = HvRun(calls: seq<Call>, vm: Option<Vm>)

  /** `f"vm-{user.username}-{new_vmid}"`. */
  function Hostname(username: string, vmid: int): string {
    "vm-" + username + "-" + IntToString(vmid)
  }

  function Repeat(c: Call, n: nat): (r: seq<Call>)
    ensures |r| == n && forall i :: 0 <= i < n ==> r[i] == c
    ensures forall x :: x in r ==> x == c
  {
    if n == 0 then [] else Repeat(c, n - 1) + [c]
  }

  /**
   * The hypervisor part of the try block of `accetta`, up to the address:
   * `None` for `vm` wherever the source raises.  `username` is `None` when
   * the request's user does not exist, which raises once `user.username` is
   * read, after the nextid call.
   */
  function Provision(hv: Hypervisor, cfg: Config, username: Option<string>, tier: VmTier): (r: HvRun)
    ensures r.calls == [] <==> !hv.clientOk || cfg.node.None? || tier.templateVmid.None?
    ensures r.calls != [] ==> r.calls[0] == NextId
    ensures r.vm.Some? ==>
              hv.nextId == Some(r.vm.value.vmid) && username.Some?
              && r.vm.value.hostname == Hostname(username.value, r.vm.value.vmid)
              && Launched(hv, r.vm.value)
  {
    if !hv.clientOk || cfg.node.None? || tier.templateVmid.None? then HvRun([], None)
    else if hv.nextId.None? || username.None? then HvRun([NextId], None)
    else
      var vmid := hv.nextId.value;
      var rest := CloneAndStart(cfg.node.value, tier.templateVmid.value, vmid, Hostname(username.value, vmid), tier, hv);
      HvRun([NextId] + rest.calls, rest.vm)
  }

  /**
   * What a container that came out of provisioning has been through: the
   * clone and start tasks finished with "OK", the configuration went
   * through, and its address is valid and normalised.
   */
  predicate Launched(hv: Hypervisor, vm: Vm) {
    TaskWaiter.Wait(hv.clonePolls).outcome == TaskWaiter.Completed && hv.configOk
    && TaskWaiter.Wait(hv.startPolls).outcome == TaskWaiter.Completed
    && Ipv4.IsValid(vm.ip) && Ipv4.Normalize(vm.ip) == vm.ip
  }

  /** Clone the template as `vmid` and wait for the clone task. */
  function CloneAndStart(node: string, template: int, vmid: int, hostname: string, tier: VmTier, hv: Hypervisor): (r: HvRun)
    ensures r.vm.Some? ==> r.vm.value.vmid == vmid && r.vm.value.hostname == hostname && Launched(hv, r.vm.value)
  {
    var cloning := [Clone(node, template, vmid, hostname)];
    if hv.cloneUpid.None? then HvRun(cloning, None)
    else
      var w := TaskWaiter.Wait(hv.clonePolls);
      var polled := cloning + Repeat(TaskStatusGet(node, hv.cloneUpid.value), w.polls);
      if w.outcome != TaskWaiter.Completed then HvRun(polled, None)
      else
        var rest := ConfigureAndStart(node, vmid, hostname, tier, hv);
        HvRun(polled + rest.calls, rest.vm)
  }

  /**
   * Read cores and memory with `int`, set them and the hostname, start the
   * container, wait for the start task and for an address.
   */
  function ConfigureAndStart(node: string, vmid: int, hostname: string, tier: VmTier, hv: Hypervisor): (r: HvRun)
    ensures r.vm.Some? ==>
              r.vm.value.vmid == vmid && r.vm.value.hostname == hostname
              && hv.configOk && TaskWaiter.Wait(hv.startPolls).outcome == TaskWaiter.Completed
              && Ipv4.IsValid(r.vm.value.ip) && Ipv4.Normalize(r.vm.value.ip) == r.vm.value.ip
  {
    if tier.cores.None? || tier.ram.None? then HvRun([], None)
    else
      var configuring := [ConfigPut(node, vmid, tier.cores.value, tier.ram.value, hostname)];
      if !hv.configOk then HvRun(configuring, None)
      else
        var starting := configuring + [StartPost(node, vmid)];
        if hv.startUpid.None? then HvRun(starting, None)
        else
          var w := TaskWaiter.Wait(hv.startPolls);
          var polled := starting + Repeat(TaskStatusGet(node, hv.startUpid.value), w.polls);
          if w.outcome != TaskWaiter.Completed then HvRun(polled, None)
          else
            var d := Discovery.Wait(hv.ifacePolls);
            Discovery.WaitClean(hv.ifacePolls);
            var calls := polled + Repeat(InterfacesGet(node, vmid), d.polls);
            if !d.outcome.Found? then HvRun(calls, None)
            else HvRun(calls, Some(Vm(vmid, hostname, d.outcome.ip)))
  }

  /** The same steps as statements, with the waits of blueprints/admin.py as loops. */
  method ProvisionVm(hv: Hypervisor, cfg: Config, username: Option<string>, tier: VmTier)
    returns (calls: seq<Call>, vm: Option<Vm>)
    ensures HvRun(calls, vm) == Provision(hv, cfg, username, tier)
  {
    calls, vm := [], None;
    if !hv.clientOk || cfg.node.None? || tier.templateVmid.None? {
      return;
    }
    calls := [NextId];
    if hv.nextId.None? || username.None? {
      return;
    }
    var vmid := hv.nextId.value;
    var rest;
    rest, vm := CloneAndStartVm(cfg.node.value, tier.templateVmid.value, vmid, Hostname(username.value, vmid), tier, hv);
    calls := calls + rest;
  }

  method CloneAndStartVm(node: string, template: int, vmid: int, hostname: string, tier: VmTier, hv: Hypervisor)
    returns (calls: seq<Call>, vm: Option<Vm>)
    ensures HvRun(calls, vm) == CloneAndStart(node, template, vmid, hostname, tier, hv)
  {
    calls, vm := [Clone(node, template, vmid, hostname)], None;
    if hv.cloneUpid.None? {
      return;
    }
    var cloned, polls := TaskWaiter.WaitTask(hv.clonePolls);
    calls := calls + Repeat(TaskStatusGet(node, hv.cloneUpid.value), polls);
    if cloned != TaskWaiter.Completed {
      return;
    }
    var rest;
    rest, vm := ConfigureAndStartVm(node, vmid, hostname, tier, hv);
    calls := calls + rest;
  }

  method ConfigureAndStartVm(node: string, vmid: int, hostname: string, tier: VmTier, hv: Hypervisor)
    returns (calls: seq<Call>, vm: Option<Vm>)
    ensures HvRun(calls, vm) == ConfigureAndStart(node, vmid, hostname, tier, hv)
  {
    calls, vm := [], None;
    if tier.cores.None? || tier.ram.None? {
      return;
    }
    calls := [ConfigPut(node, vmid, tier.cores.value, tier.ram.value, hostname)];
    if !hv.configOk {
      return;
    }
    calls := calls + [StartPost(node, vmid)];
    if hv.startUpid.None? {
      return;
    }
    var started, polls := TaskWaiter.WaitTask(hv.startPolls);
    calls := calls + Repeat(TaskStatusGet(node, hv.startUpid.value), polls);
    if started != TaskWaiter.Completed {
      return;
    }
    var found, ifacePolls := Discovery.WaitIpv4(hv.ifacePolls);
    calls := calls + Repeat(InterfacesGet(node, vmid), ifacePolls);
    if found.Found? {
      vm := Some(Vm(vmid, hostname, found.ip));
    }
  }

  // ------------------------------------------------------------ accetta

  /** How `accetta` ends. */
  datatype AcceptOutcome =
    | NoRequest        // `req` is None: `req.user_id` raises outside the try
    | NotPending       // "Non puoi accettare: stato attuale ..."
    | NoVmType         // "Tipo VM non trovato"
    | Provisioned      // "VM creata e avviata ..."
    | ProvisionFailed  // the except branch: FAILED

  /** What one commit wrote for the request: its status and its credentials row. */
  datatype Commit = Commit(id: int, status: Status, creds: Option<Credentials>)

  /** The effect of `accetta` on one existing request. */
  datatype Accepted = Accepted(
    outcome: AcceptOutcome,
    status: Status,
    creds: Option<Credentials>,
    commits: seq<Commit>,
    calls: seq<Call>)

  /**
   * `accetta` on request `id`, whose status is `current` and whose
   * credentials row is `existing`: the guards, then provisioning, then
   * `Record`.
   */
  function AcceptRun(id: int, current: Status, existing: Option<Credentials>, username: Option<string>,
                     tier: Option<VmTier>, cfg: Config, hv: Hypervisor): Accepted
  {
    if current != Pending then Accepted(NotPending, current, existing, [], [])
    else if tier.None? then Accepted(NoVmType, current, existing, [], [])
    else Record(id, existing, cfg, Provision(hv, cfg, username, tier.value))
  }

  /**
   * What the try block writes once provisioning `run` is over.  After the
   * address is known, READY is committed first; then the row is filled field
   * by field, and a missing config key raises midway.  The FAILED commit of
   * the except branch then also flushes the fields already assigned to an
   * existing row; a new row was never added to the session and is not
   * written.
   */
  function Record(id: int, existing: Option<Credentials>, cfg: Config, run: HvRun): (r: Accepted)
    ensures r.calls == run.calls
    ensures r.status in {Ready, Failed} && (r.status == Ready <==> r.outcome == Provisioned)
    ensures r.status == Ready <==> run.vm.Some? && cfg.vmUsername.Some? && cfg.vmPassword.Some?
    ensures r.status == Ready ==>
              r.creds == Some(Credentials(run.vm.value.ip, cfg.vmUsername.value, cfg.vmPassword.value, run.vm.value.hostname))
    ensures 1 <= |r.commits| <= 2 && r.commits[|r.commits| - 1] == Commit(id, r.status, r.creds)
    ensures forall k :: 0 <= k < |r.commits| ==> r.commits[k].id == id && r.commits[k].status in {Ready, Failed}
    ensures |r.commits| == 2 <==> run.vm.Some?
    ensures |r.commits| == 2 ==> r.commits[0] == Commit(id, Ready, existing)
    ensures existing.None? ==> (r.creds.Some? <==> r.status == Ready)
    ensures existing.Some? && r.status == Failed ==>
              r.creds.Some? && r.creds.value.password == existing.value.password
              && r.creds.value.hostname == existing.value.hostname
              && r.creds.value.ipAddress == (if run.vm.Some? then run.vm.value.ip else existing.value.ipAddress)
  {
    if run.vm.None? then
      Accepted(ProvisionFailed, Failed, existing, [Commit(id, Failed, existing)], run.calls)
    else
      var vm := run.vm.value;
      var ready := Commit(id, Ready, existing);
      if cfg.vmUsername.None? || cfg.vmPassword.None? then
        var partial :=
          if existing.None? then None
          else if cfg.vmUsername.None? then Some(existing.value.(ipAddress := vm.ip))
          else Some(existing.value.(ipAddress := vm.ip, username := cfg.vmUsername.value));
        Accepted(ProvisionFailed, Failed, partial, [ready, Commit(id, Failed, partial)], run.calls)
      else
        var creds := Credentials(vm.ip, cfg.vmUsername.value, cfg.vmPassword.value, vm.hostname);
        Accepted(Provisioned, Ready, Some(creds), [ready, Commit(id, Ready, Some(creds))], run.calls)
  }

  /** How `rifiuta` ends. */
  datatype RejectOutcome = NotFound | RejectNotPending | RejectedNow

  /** The status `rifiuta` leaves behind. */
  function RejectedStatus(current: Status): (r: Status)
    ensures r == Rejected <==> current == Pending || current == Rejected
    ensures current != Pending ==> r == current
  {
    if current == Pending then Rejected else current
  }

  /** The requests and credential rows, and what each commit wrote. */
  class Store {
    var status: map<int, Status>
    var credentials: map<int, Credentials>
    var commits: seq<Commit>

    constructor (status: map<int, Status>, credentials: map<int, Credentials>)
      ensures this.status == status && this.credentials == credentials && commits == []
    {
      this.status := status;
      this.credentials := credentials;
      commits := [];
    }

    function CredsOf(id: int): Option<Credentials>
      reads this
    {
      if id in credentials then Some(credentials[id]) else None
    }

    /** `accetta(id)` for a request whose user is `username` and whose VM type is `tier`. */
    method Accept(id: int, username: Option<string>, tier: Option<VmTier>, cfg: Config, hv: Hypervisor)
      returns (outcome: AcceptOutcome, calls: seq<Call>)
      modifies this
      ensures id !in old(status) ==> outcome == NoRequest && calls == [] && unchanged(this)
      ensures id in old(status) ==>
        var r := AcceptRun(id, old(status)[id], old(CredsOf(id)), username, tier, cfg, hv);
        outcome == r.outcome && calls == r.calls
        && status == old(status)[id := r.status]
        && credentials == (if r.creds.Some? then old(credentials)[id := r.creds.value] else old(credentials))
        && commits == old(commits) + r.commits
    {
      if id !in status {
        return NoRequest, [];
      }
      if status[id] != Pending {
        assert status == status[id := status[id]];
        if id in credentials {
          assert credentials == credentials[id := credentials[id]];
        }
        return NotPending, [];
      }
      if tier.None? {
        assert status == status[id := Pending];
        if id in credentials {
          assert credentials == credentials[id := credentials[id]];
        }
        return NoVmType, [];
      }
      var vm;
      calls, vm := ProvisionVm(hv, cfg, username, tier.value);
      outcome := Save(id, cfg, calls, vm);
    }

    /**
     * The rest of the try block once provisioning has run, and the except
     * branch: commit READY, fill the row found or a new one, commit again;
     * on a missing config key, commit FAILED.
     */
    method Save(id: int, cfg: Config, calls: seq<Call>, vm: Option<Vm>) returns (outcome: AcceptOutcome)
      requires id in status
      modifies this
      ensures var r := Record(id, old(CredsOf(id)), cfg, HvRun(calls, vm));
        outcome == r.outcome
        && status == old(status)[id := r.status]
        && credentials == (if r.creds.Some? then old(credentials)[id := r.creds.value] else old(credentials))
        && commits == old(commits) + r.commits
    {
      ghost var existing := CredsOf(id);
      ghost var r := Record(id, existing, cfg, HvRun(calls, vm));
      if vm.None? {
        status := status[id := Failed];
        commits := commits + [Commit(id, Failed, CredsOf(id))];
        if id in credentials {
          assert credentials == credentials[id := credentials[id]];
        }
        return ProvisionFailed;
      }
      ghost var ready := Commit(id, Ready, existing);
      status := status[id := Ready];
      commits := commits + [Commit(id, Ready, CredsOf(id))];
      // the row found, or a new one not yet in the session
      var found := id in credentials;
      var row := if found then credentials[id] else Credentials("", "", "", "");
      row := row.(ipAddress := vm.value.ip);
      if cfg.vmUsername.None? {
        assert r.creds == (if found then Some(row) else None);
        if found {
          credentials := credentials[id := row];
        }
        status := status[id := Failed];
        commits := commits + [Commit(id, Failed, CredsOf(id))];
        return ProvisionFailed;
      }
      row := row.(username := cfg.vmUsername.value);
      if cfg.vmPassword.None? {
        assert r.creds == (if found then Some(row) else None);
        if found {
          credentials := credentials[id := row];
        }
        status := status[id := Failed];
        commits := commits + [Commit(id, Failed, CredsOf(id))];
        return ProvisionFailed;
      }
      row := row.(password := cfg.vmPassword.value, hostname := vm.value.hostname);
      credentials := credentials[id := row];
      commits := commits + [Commit(id, Ready, CredsOf(id))];
      return Provisioned;
    }

    /** `rifiuta(id)`: only a PENDING request becomes REJECTED, with one commit. */
    method Reject(id: int) returns (outcome: RejectOutcome)
      modifies this
      ensures credentials == old(credentials)
      ensures outcome == RejectedNow <==> id in old(status) && old(status)[id] == Pending
      ensures outcome == NotFound <==> id !in old(status)
      ensures id in old(status) ==> status == old(status)[id := RejectedStatus(old(status)[id])]
      ensures outcome == RejectedNow ==> commits == old(commits) + [Commit(id, Rejected, CredsOf(id))]
      ensures outcome != RejectedNow ==> status == old(status) && commits == old(commits)
    {
      if id !in status {
        return NotFound;
      }
      if status[id] != Pending {
        return RejectNotPending;
      }
      status := status[id := Rejected];
      commits := commits + [Commit(id, Rejected, CredsOf(id))];
      return RejectedNow;
    }
  }

  // ------------------------------------------------------------- lemmas

  predicate Starts(calls: seq<Call>) {
    exists c :: c in calls && c.StartPost?
  }

  predicate Configures(calls: seq<Call>) {
    exists c :: c in calls && c.ConfigPut?
  }

  lemma StartsOnlyIfConfigured(node: string, vmid: int, hostname: string, tier: VmTier, hv: Hypervisor)
    ensures Starts(ConfigureAndStart(node, vmid, hostname, tier, hv).calls) ==> hv.configOk
  {
    if !hv.configOk && tier.cores.Some? && tier.ram.Some? {
      assert ConfigureAndStart(node, vmid, hostname, tier, hv).calls == [ConfigPut(node, vmid, tier.cores.value, tier.ram.value, hostname)];
    }
  }

  lemma ConfiguresOnlyIfCloned(node: string, template: int, vmid: int, hostname: string, tier: VmTier, hv: Hypervisor)
    ensures var calls := CloneAndStart(node, template, vmid, hostname, tier, hv).calls;
      (Configures(calls) || Starts(calls)) ==> TaskWaiter.Wait(hv.clonePolls).outcome == TaskWaiter.Completed
    ensures Starts(CloneAndStart(node, template, vmid, hostname, tier, hv).calls) ==> hv.configOk
  {
    var calls := CloneAndStart(node, template, vmid, hostname, tier, hv).calls;
    var cloning := [Clone(node, template, vmid, hostname)];
    if hv.cloneUpid.Some? {
      var w := TaskWaiter.Wait(hv.clonePolls);
      var polled := cloning + Repeat(TaskStatusGet(node, hv.cloneUpid.value), w.polls);
      assert forall c :: c in polled ==> c.Clone? || c.TaskStatusGet?;
      if w.outcome == TaskWaiter.Completed {
        StartsOnlyIfConfigured(node, vmid, hostname, tier, hv);
        var rest := ConfigureAndStart(node, vmid, hostname, tier, hv).calls;
        if Starts(calls) {
          var c :| c in polled + rest && c.StartPost?;
          assert c in rest;
        }
      }
    }
  }

  /**
   * The container is configured only after the clone task finished with
   * "OK", and started only after the configuration went through.
   */
  lemma StartsAfterClone(hv: Hypervisor, cfg: Config, username: Option<string>, tier: VmTier)
    ensures var calls := Provision(hv, cfg, username, tier).calls;
      (Configures(calls) ==> TaskWaiter.Wait(hv.clonePolls).outcome == TaskWaiter.Completed)
      && (Starts(calls) ==> TaskWaiter.Wait(hv.clonePolls).outcome == TaskWaiter.Completed && hv.configOk)
  {
    var calls := Provision(hv, cfg, username, tier).calls;
    if hv.clientOk && cfg.node.Some? && tier.templateVmid.Some? && hv.nextId.Some? && username.Some? {
      var vmid := hv.nextId.value;
      var hostname := Hostname(username.value, vmid);
      ConfiguresOnlyIfCloned(cfg.node.value, tier.templateVmid.value, vmid, hostname, tier, hv);
      var rest := CloneAndStart(cfg.node.value, tier.templateVmid.value, vmid, hostname, tier, hv).calls;
      assert calls == [NextId] + rest;
      if Starts(calls) {
        var c :| c in calls && c.StartPost?;
        assert c in rest;
      }
      if Configures(calls) {
        var c :| c in calls && c.ConfigPut?;
        assert c in rest;
      }
    }
  }

  /**
   * A tier field that `int` cannot read makes provisioning fail, before the
   * configuration is sent: no container comes out, and the container is
   * neither configured nor started.
   */
  lemma UnreadableTierFails(hv: Hypervisor, cfg: Config, username: Option<string>, tier: VmTier)
    requires tier.templateVmid.None? || tier.cores.None? || tier.ram.None?
    ensures Provision(hv, cfg, username, tier).vm.None?
    ensures var calls := Provision(hv, cfg, username, tier).calls; !Configures(calls) && !Starts(calls)
  {
    var calls := Provision(hv, cfg, username, tier).calls;
    if hv.clientOk && cfg.node.Some? && tier.templateVmid.Some? && hv.nextId.Some? && username.Some? {
      var node, vmid := cfg.node.value, hv.nextId.value;
      var hostname := Hostname(username.value, vmid);
      var template := tier.templateVmid.value;
      assert ConfigureAndStart(node, vmid, hostname, tier, hv) == HvRun([], None);
      var rest := CloneAndStart(node, template, vmid, hostname, tier, hv).calls;
      if hv.cloneUpid.Some? {
        var w := TaskWaiter.Wait(hv.clonePolls);
        var polled := [Clone(node, template, vmid, hostname)] + Repeat(TaskStatusGet(node, hv.cloneUpid.value), w.polls);
        assert forall c :: c in polled ==> c.Clone? || c.TaskStatusGet?;
        assert rest == polled;
      }
      assert calls == [NextId] + rest;
    }
  }

  /** A request that is not PENDING, or has no VM type, is left alone and nothing is called. */
  lemma AcceptGuard(id: int, current: Status, existing: Option<Credentials>, username: Option<string>,
                    tier: Option<VmTier>, cfg: Config, hv: Hypervisor)
    ensures var r := AcceptRun(id, current, existing, username, tier, cfg, hv);
      (current != Pending || tier.None?) <==> (r.calls == [] && r.commits == [])
    ensures var r := AcceptRun(id, current, existing, username, tier, cfg, hv);
      r.commits == [] ==> r.status == current && r.creds == existing
  {
    var r := AcceptRun(id, current, existing, username, tier, cfg, hv);
    if current == Pending && tier.Some? {
      assert r.commits != [];
    }
  }

  /** The transitions of the request status: out of PENDING only, into a terminal status. */
  predicate Moves(s: Status, t: Status) {
    t == s || (s == Pending && t != Pending)
  }

  lemma StatusMachine(id: int, current: Status, existing: Option<Credentials>, username: Option<string>,
                      tier: Option<VmTier>, cfg: Config, hv: Hypervisor)
    ensures var r := AcceptRun(id, current, existing, username, tier, cfg, hv);
      Moves(current, r.status) && (r.status == Rejected ==> current == Rejected)
      && (current == Pending && tier.Some? ==> r.status in {Ready, Failed})
      && forall k :: 0 <= k < |r.commits| ==> r.commits[k].id == id && r.commits[k].status in {Ready, Failed}
    ensures Moves(current, RejectedStatus(current))
    ensures current != Pending ==> AcceptRun(id, current, existing, username, tier, cfg, hv).status == current
  {
  }

  /**
   * A request ends READY exactly when provisioning succeeded and both default
   * credentials are configured; its row then holds the container's valid,
   * normalised address, those credentials and the hostname built from the
   * user's name and the new VM id.  READY is committed once before the row is
   * written, and once with it.
   */
  lemma ReadyMeansCredentials(id: int, existing: Option<Credentials>, username: Option<string>,
                              tier: VmTier, cfg: Config, hv: Hypervisor)
    ensures var r := AcceptRun(id, Pending, existing, username, Some(tier), cfg, hv);
      var run := Provision(hv, cfg, username, tier);
      (r.status == Ready <==> run.vm.Some? && cfg.vmUsername.Some? && cfg.vmPassword.Some?)
      && r.calls == run.calls
    ensures var r := AcceptRun(id, Pending, existing, username, Some(tier), cfg, hv);
      r.status == Ready ==>
        r.creds.Some? && Ipv4.IsValid(r.creds.value.ipAddress)
        && Ipv4.Normalize(r.creds.value.ipAddress) == r.creds.value.ipAddress
        && username.Some? && hv.nextId.Some?
        && r.creds.value.hostname == Hostname(username.value, hv.nextId.value)
        && r.creds.value.username == cfg.vmUsername.value && r.creds.value.password == cfg.vmPassword.value
        && r.commits == [Commit(id, Ready, existing), Commit(id, Ready, r.creds)]
  {
    var r := AcceptRun(id, Pending, existing, username, Some(tier), cfg, hv);
    var run := Provision(hv, cfg, username, tier);
    assert r == Record(id, existing, cfg, run);
    if r.status == Ready {
      assert Launched(hv, run.vm.value);
    }
  }

  /**
   * Accepting twice provisions at most once: the second `accetta` finds the
   * request no longer PENDING, calls nothing and changes nothing.
   */
  lemma AcceptOnce(id: int, existing: Option<Credentials>, username: Option<string>, tier: Option<VmTier>,
                   cfg: Config, hv: Hypervisor, cfg2: Config, hv2: Hypervisor)
    requires tier.Some?
    ensures var r := AcceptRun(id, Pending, existing, username, tier, cfg, hv);
      var again := AcceptRun(id, r.status, r.creds, username, tier, cfg2, hv2);
      again.outcome == NotPending && again.calls == [] && again.commits == []
      && again.status == r.status && again.creds == r.creds
  {
    StatusMachine(id, Pending, existing, username, tier, cfg, hv);
  }

  /** Once rejected, a request can be neither accepted nor rejected again. */
  lemma RejectIsFinal(id: int, existing: Option<Credentials>, username: Option<string>, tier: Option<VmTier>,
                      cfg: Config, hv: Hypervisor)
    ensures RejectedStatus(RejectedStatus(Pending)) == Rejected
    ensures var r := AcceptRun(id, RejectedStatus(Pending), existing, username, tier, cfg, hv);
      r.outcome == NotPending && r.calls == [] && r.status == Rejected
  {
  }
}
