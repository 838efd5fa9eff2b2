/**
 * utils/ssh.py: the password generator, the port and SSH readiness waits,
 * `ssh_exec`, and `create_user_over_ssh`, which logs in as a bootstrap user
 * and runs a fixed, fail-fast sequence of commands in the guest.
 *
 * The guest is a small state machine (`Guest`) that the commands act on; the
 * network is the sequence `links` of outcomes of the coming SSH sessions; the
 * deadlines of the two waits are the connection answers received before them
 * (`connects`) and the number of SSH attempts that fit (`attempts`).
 */
module Bootstrap {
  import opened Wrappers
  import opened Text
  import Shell

  // ----------------------------------------------------------- gen_password

  /** The characters from `first` to `last`, in order. */
  function Span(first: char, last: char): (r: string)
    requires first <= last <= '\U{D7FF}'
    ensures |r| == last as int - first as int + 1
    ensures forall i :: 0 <= i < |r| ==> r[i] as int == first as int + i
    decreases last as int - first as int
  {
    if first == last then [first] else [first] + Span((first as int + 1) as char, last)
  }

  /** `string.ascii_letters + string.digits + "!@#$%_-+"`. */
  function Alphabet(): (r: string)
    ensures |r| == 70
  {
    Span('a', 'z') + Span('A', 'Z') + Span('0', '9') + "!@#$%_-+"
  }

  predicate InAlphabet(c: char) {
    IsAsciiLetter(c) || IsDigit(c) || c in "!@#$%_-+"
  }

  lemma InSpan(first: char, last: char, c: char)
    requires first <= last <= '\U{D7FF}'
    ensures c in Span(first, last) <==> first <= c <= last
  {
    var s := Span(first, last);
    if first <= c <= last {
      assert s[c as int - first as int] == c;
    }
  }

  /** The alphabet is exactly the ASCII letters, the digits and `!@#$%_-+`. */
  lemma AlphabetIsCharset()
    ensures forall c :: c in Alphabet() <==> InAlphabet(c)
  {
    var a := Alphabet();
    forall c ensures c in a <==> InAlphabet(c) {
      InSpan('a', 'z', c);
      InSpan('A', 'Z', c);
      InSpan('0', '9', c);
      assert c in a <==> c in Span('a', 'z') || c in Span('A', 'Z') || c in Span('0', '9') || c in "!@#$%_-+";
    }
  }

  /**
   * `gen_password(n)`: `n` characters (none for `n <= 0`, as `range(n)` is
   * then empty), the `i`-th at the position `choose(i)` names, which stands
   * for the `i`-th call of `secrets.choice`.
   */
  method GenPassword(n: int, choose: nat -> nat) returns (password: string)
    ensures |password| == if n < 0 then 0 else n
    ensures forall i :: 0 <= i < |password| ==> password[i] == Alphabet()[choose(i) % 70]
    ensures forall i :: 0 <= i < |password| ==> InAlphabet(password[i])
  {
    AlphabetIsCharset();
    var chars: seq<char> := [];
    var count := if n < 0 then 0 else n;
    for i := 0 to count
      invariant |chars| == i
      invariant forall k :: 0 <= k < i ==> chars[k] == Alphabet()[choose(k) % 70]
    {
      chars := chars + [Alphabet()[choose(i) % 70]];
    }
    password := chars;
  }

  // -------------------------------------------------------------- wait_port

  /**
   * `wait_port`: `connects` are the answers of the connection attempts that
   * start before the deadline.  It stops at the first that succeeds and
   * reports a timeout only when none does.
   */
  method WaitPort(connects: seq<bool>) returns (open: bool, attempts: nat)
    ensures open <==> true in connects
    ensures open ==> 1 <= attempts <= |connects| && connects[attempts - 1]
    ensures open ==> forall j :: 0 <= j < attempts - 1 ==> !connects[j]
    ensures !open ==> attempts == |connects|
  {
    attempts := 0;
    while attempts < |connects|
      invariant attempts <= |connects|
      invariant forall j :: 0 <= j < attempts ==> !connects[j]
    {
      if connects[attempts] {
        return true, attempts + 1;
      }
      attempts := attempts + 1;
    }
    return false, attempts;
  }

  // --------------------------------------------------------------- ssh_exec

  /** What one SSH session yields: no connection, or the command's exit code and stdout. */
  datatype SessionReply = Unreachable | Exited(rc: int, stdout: string)

  /** How `ssh_exec` ends: it returns stripped stdout, or raises. */
  datatype ExecResult =
    | Output(text: string)     // return out.strip()
    | ConnectionError          // connect/auth raises
    | CommandFailed            // "SSH cmd non riuscito"

  /** `ssh_exec`'s contract on one session. */
  function ExecOutcome(reply: SessionReply): (r: ExecResult)
    ensures r.Output? <==> reply.Exited? && reply.rc == 0
    ensures r.Output? ==> NoOuterSpace(r.text) && exists i: nat, j: nat :: TrimmedAt(reply.stdout, r.text, i, j)
  {
    match reply
    case Unreachable => ConnectionError
    case Exited(rc, stdout) => if rc != 0 then CommandFailed else Output(Strip(stdout))
  }

  // ------------------------------------------------------------- the guest

  /**
   * What the commands can see and change in the container: its accounts,
   * their passwords, whether a `sudo` group exists and who is in it, whether
   * the bootstrap user may run `sudo -n`, and the names `useradd` refuses.
   */
  datatype Guest = Guest(
    users: set<string>,
    passwords: map<string, string>,
    sudoGroup: bool,
    sudoers: set<string>,
    noPasswd: bool,
    refused: set<string>)

  /** The commands `create_user_over_ssh` and `wait_ssh_up` send. */
  datatype Command =
    | TrueProbe                               // "true"
    | SudoProbe                               // "sudo -n true"
    | EnsureUser(user: string)                // id -u u || useradd -m -s /bin/bash u
    | SetPassword(user: string, pass: string) // echo 'u:p' | chpasswd
    | GrantSudo(user: string)                 // getent group sudo || exit 0; usermod -aG sudo u
    | VerifyUser(user: string)                // getent passwd u

  /** The script a `sudo_cmd`-wrapped command hands to `bash -lc`. */
  function Script(c: Command): string {
    match c
    case TrueProbe => "true"
    case SudoProbe => "true"
    case EnsureUser(u) =>
      "id -u " + Shell.ShellQuote(u) + " >/dev/null 2>&1 || useradd -m -s /bin/bash " + Shell.ShellQuote(u)
    case SetPassword(u, p) => "echo " + Shell.ShellQuote(u + ":" + p) + " | chpasswd"
    case GrantSudo(u) =>
      "getent group sudo >/dev/null 2>&1" + " || exit 0; usermod -aG sudo " + Shell.ShellQuote(u)
    case VerifyUser(u) => "getent passwd " + Shell.ShellQuote(u)
  }

  predicate UsesSudoCmd(c: Command) {
    c.EnsureUser? || c.SetPassword? || c.GrantSudo? || c.VerifyUser?
  }

  /** The text `ssh_exec` sends, with the corrected `sudo_cmd`. */
  function Render(c: Command): string {
    match c
    case TrueProbe => "true"
    case SudoProbe => "sudo -n true"
    case _ => Shell.SudoCmd(Script(c))
  }

  /** The text as `sudo_cmd` is written. */
  function RenderAsWritten(c: Command): string {
    match c
    case TrueProbe => "true"
    case SudoProbe => "sudo -n true"
    case _ => Shell.SudoCmdAsWritten(Script(c))
  }

  /**
   * Exit code and new guest state of one command.  Every command but the
   * plain `true` goes through `sudo -n`, which exits 1 at once unless the
   * bootstrap user has password-less sudo.
   */
  function Effect(g: Guest, c: Command): (int, Guest) {
    if c.TrueProbe? then (0, g)
    else if !g.noPasswd then (1, g)
    else
      match c
      case SudoProbe => (0, g)
      case EnsureUser(u) =>
        if u in g.users then (0, g)
        else if u in g.refused then (3, g)
        else (0, g.(users := g.users + {u}))
      case SetPassword(u, p) =>
        if u in g.users then (0, g.(passwords := g.passwords[u := p])) else (1, g)
      case GrantSudo(u) =>
        if !g.sudoGroup then (0, g)
        else if u in g.users then (0, g.(sudoers := g.sudoers + {u}))
        else (6, g)
      case VerifyUser(u) => if u in g.users then (0, g) else (2, g)
  }

  /** The guest, the outcomes of the coming SSH sessions, and every command `ssh_exec` was called with. */
  datatype World = World(guest: Guest, links: seq<bool>, log: seq<Command>)

  datatype Executed = Executed(result: ExecResult, world: World)

  /**
   * One `ssh_exec`: the command is logged, one session is used up (an empty
   * `links` means the network is gone), and the guest changes only when the
   * session got through.  Command output is not modelled: stdout is empty.
   */
  function ExecRun(w: World, c: Command): (e: Executed)
    ensures e.world.log == w.log + [c]
    ensures e.world.links == if w.links == [] then [] else w.links[1..]
    ensures e.result == ConnectionError <==> w.links == [] || !w.links[0]
  {
    var log := w.log + [c];
    if w.links == [] then Executed(ConnectionError, w.(log := log))
    else if !w.links[0] then Executed(ConnectionError, w.(links := w.links[1..], log := log))
    else
      var (rc, g) := Effect(w.guest, c);
      Executed(ExecOutcome(Exited(rc, "")), World(g, w.links[1..], log))
  }

  // ----------------------------------------------------------- wait_ssh_up

  datatype SshWait = PortTimeout | SshUp | SshTimeout(last: Option<ExecResult>)

  datatype Waited = Waited(outcome: SshWait, world: World)

  /** The retry loop of `wait_ssh_up`, with `attempts` tries left and `last` the latest error. */
  function SshLoop(w: World, attempts: nat, last: Option<ExecResult>): (r: Waited)
    ensures r.outcome != PortTimeout
    decreases attempts
  {
    if attempts == 0 then Waited(SshTimeout(last), w)
    else
      var e := ExecRun(w, TrueProbe);
      if e.result.Output? then Waited(SshUp, e.world) else SshLoop(e.world, attempts - 1, Some(e.result))
  }

  /** `wait_ssh_up`: the port wait, then `true` over SSH until it succeeds. */
  function WaitSshUpRun(w: World, connects: seq<bool>, attempts: nat): Waited {
    if true !in connects then Waited(PortTimeout, w) else SshLoop(w, attempts, None)
  }

  // -------------------------------------------------- create_user_over_ssh

  datatype Created =
    | Created                                      // returns normally
    | InvalidUser                                  // ValueError, before any network action
    | SshNotReady(wait: SshWait)                   // wait_ssh_up raises
    | StepFailed(step: Command, error: ExecResult) // an ssh_exec raises; nothing after it runs

  datatype Bootstrapped = Bootstrapped(outcome: Created, world: World)

  /** The commands after the readiness wait, in order; the sudo-group step only with `makeSudo`. */
  function Plan(u: string, p: string, makeSudo: bool): seq<Command> {
    [SudoProbe, EnsureUser(u), SetPassword(u, p)] + (if makeSudo then [GrantSudo(u)] else []) + [VerifyUser(u)]
  }

  /** Run `cmds` in order, stopping at the first that fails. */
  function RunSteps(w: World, cmds: seq<Command>): (r: Bootstrapped)
    ensures r.outcome.Created? || r.outcome.StepFailed?
    decreases |cmds|
  {
    if cmds == [] then Bootstrapped(Created, w)
    else
      var e := ExecRun(w, cmds[0]);
      if e.result.Output? then RunSteps(e.world, cmds[1..]) else Bootstrapped(StepFailed(cmds[0], e.result), e.world)
  }

  /** `create_user_over_ssh` (the unused `lock_bootstrap` aside). */
  function CreateUserRun(w: World, u: string, p: string, makeSudo: bool, connects: seq<bool>, attempts: nat): Bootstrapped {
    if !IsAlnum(u) then Bootstrapped(InvalidUser, w)
    else
      var up := WaitSshUpRun(w, connects, attempts);
      if !up.outcome.SshUp? then Bootstrapped(SshNotReady(up.outcome), up.world)
      else RunSteps(up.world, Plan(u, p, makeSudo))
  }

  // ------------------------------------------------- sudo_cmd as written

  /**
   * With `sudo_cmd` as written, `bash -lc` is known to receive the script `c`
   * stands for.  `Shell.Read` leaves undefined a `$` other than `$1`-`$9`,
   * so a script holding, say, `$%` is not known to arrive even though the
   * remote shell passes it through.
   */
  predicate DeliveredAsWritten(c: Command) {
    !UsesSudoCmd(c) || Shell.ReadWord(RenderAsWritten(c)[|Shell.SudoPrefix|..]) == Some(Script(c))
  }

  /**
   * One `ssh_exec` with `sudo_cmd` as written.  It differs from `ExecRun`
   * only when the session gets through and the script arrives changed;
   * what the guest does with a changed script is `garbled`, which the model
   * leaves open.
   */
  function ExecRunAsWritten(w: World, c: Command, garbled: (Guest, Command) -> (int, Guest)): Executed {
    if DeliveredAsWritten(c) || w.links == [] || !w.links[0] then ExecRun(w, c)
    else
      var (rc, g) := garbled(w.guest, c);
      Executed(ExecOutcome(Exited(rc, "")), World(g, w.links[1..], w.log + [c]))
  }

  function RunStepsAsWritten(w: World, cmds: seq<Command>, garbled: (Guest, Command) -> (int, Guest)): Bootstrapped
    decreases |cmds|
  {
    if cmds == [] then Bootstrapped(Created, w)
    else
      var e := ExecRunAsWritten(w, cmds[0], garbled);
      if e.result.Output? then RunStepsAsWritten(e.world, cmds[1..], garbled)
      else Bootstrapped(StepFailed(cmds[0], e.result), e.world)
  }

  /** `create_user_over_ssh` with `sudo_cmd` as written. */
  function CreateUserRunAsWritten(w: World, u: string, p: string, makeSudo: bool, connects: seq<bool>, attempts: nat,
                                  garbled: (Guest, Command) -> (int, Guest)): Bootstrapped {
    if !IsAlnum(u) then Bootstrapped(InvalidUser, w)
    else
      var up := WaitSshUpRun(w, connects, attempts);
      if !up.outcome.SshUp? then Bootstrapped(SshNotReady(up.outcome), up.world)
      else RunStepsAsWritten(up.world, Plan(u, p, makeSudo), garbled)
  }

  // ------------------------------------------------------------ the session

  /** The bootstrap user's view of one container over SSH. */
  class Remote {
    var guest: Guest
    var links: seq<bool>
    var log: seq<Command>
    /** Whether a paramiko client is connected. */
    var connected: bool

    function State(): World
      reads this
    {
      World(guest, links, log)
    }

    constructor (g: Guest, links: seq<bool>)
      ensures State() == World(g, links, []) && !connected
    {
      guest := g;
      this.links := links;
      log := [];
      connected := false;
    }

    /** `ssh_exec`: whatever happens, the client is closed on the way out. */
    method Exec(c: Command) returns (r: ExecResult)
      requires !connected
      modifies this
      ensures !connected
      ensures Executed(r, State()) == ExecRun(old(State()), c)
    {
      log := log + [c];
      if links == [] {
        return ConnectionError;
      }
      var reachable := links[0];
      links := links[1..];
      if !reachable {
        return ConnectionError;
      }
      connected := true;
      var (rc, g) := Effect(guest, c);
      guest := g;
      r := ExecOutcome(Exited(rc, ""));
      connected := false;
    }

    /** `wait_ssh_up`. */
    method WaitSshUp(connects: seq<bool>, attempts: nat) returns (r: SshWait)
      requires !connected
      modifies this
      ensures !connected
      ensures Waited(r, State()) == WaitSshUpRun(old(State()), connects, attempts)
    {
      var open, _ := WaitPort(connects);
      if !open {
        return PortTimeout;
      }
      var last: Option<ExecResult> := None;
      var left := attempts;
      while left > 0
        invariant !connected
        invariant SshLoop(State(), left, last) == WaitSshUpRun(old(State()), connects, attempts)
      {
        var e := Exec(TrueProbe);
        if e.Output? {
          return SshUp;
        }
        last := Some(e);
        left := left - 1;
      }
      return SshTimeout(last);
    }

    /** `create_user_over_ssh`: validation, readiness wait, then each command or the first failure. */
    method CreateUser(u: string, p: string, makeSudo: bool, connects: seq<bool>, attempts: nat) returns (outcome: Created)
      requires !connected
      modifies this
      ensures !connected
      ensures Bootstrapped(outcome, State()) == CreateUserRun(old(State()), u, p, makeSudo, connects, attempts)
    {
      if !IsAlnum(u) {
        return InvalidUser;
      }
      var up := WaitSshUp(connects, attempts);
      if !up.SshUp? {
        return SshNotReady(up);
      }
      outcome := RunPlan(u, p, makeSudo);
    }

    /** The commands after the readiness wait, each one only if the previous succeeded. */
    method RunPlan(u: string, p: string, makeSudo: bool) returns (outcome: Created)
      requires !connected
      modifies this
      ensures !connected
      ensures Bootstrapped(outcome, State()) == RunSteps(old(State()), Plan(u, p, makeSudo))
    {
      ghost var plan := Plan(u, p, makeSudo);
      ghost var last := if makeSudo then 4 else 3;
      PlanShape(u, p, makeSudo);
      var r := Step(SudoProbe, plan, 0);
      if !r.Output? {
        return StepFailed(SudoProbe, r);
      }
      r := Step(EnsureUser(u), plan, 1);
      if !r.Output? {
        return StepFailed(EnsureUser(u), r);
      }
      r := Step(SetPassword(u, p), plan, 2);
      if !r.Output? {
        return StepFailed(SetPassword(u, p), r);
      }
      if makeSudo {
        r := Step(GrantSudo(u), plan, 3);
        if !r.Output? {
          return StepFailed(GrantSudo(u), r);
        }
      }
      r := Step(VerifyUser(u), plan, last);
      if !r.Output? {
        return StepFailed(VerifyUser(u), r);
      }
      return Created;
    }

    /** One `ssh_exec` of `create_user_over_ssh`: step `k` of the commands `cmds`. */
    method Step(c: Command, ghost cmds: seq<Command>, ghost k: nat) returns (r: ExecResult)
      requires !connected && k < |cmds| && cmds[k] == c
      modifies this
      ensures !connected
      ensures r.Output? ==> RunSteps(old(State()), cmds[k..]) == RunSteps(State(), cmds[k + 1..])
      ensures !r.Output? ==> RunSteps(old(State()), cmds[k..]) == Bootstrapped(StepFailed(c, r), State())
    {
      RunStepsCons(State(), cmds[k..]);
      assert cmds[k..][0] == c && cmds[k..][1..] == cmds[k + 1..];
      r := Exec(c);
    }
  }

  // ------------------------------------------------------------- lemmas

  lemma PlanShape(u: string, p: string, makeSudo: bool)
    ensures var plan, last := Plan(u, p, makeSudo), if makeSudo then 4 else 3;
      |plan| == last + 1 && plan[0] == SudoProbe && plan[1] == EnsureUser(u) && plan[2] == SetPassword(u, p)
      && plan[last] == VerifyUser(u) && (makeSudo ==> plan[3] == GrantSudo(u))
  {
  }

  lemma RunStepsCons(w: World, cmds: seq<Command>)
    requires cmds != []
    ensures var e := ExecRun(w, cmds[0]);
      RunSteps(w, cmds) == if e.result.Output? then RunSteps(e.world, cmds[1..]) else Bootstrapped(StepFailed(cmds[0], e.result), e.world)
  {
  }

  /**
   * Fail-fast, in order: the commands `ssh_exec` was called with are a
   * prefix of `cmds`; all of them on success, and up to and including the
   * failing one otherwise.
   */
  lemma {:induction false} RunStepsFailFast(w: World, cmds: seq<Command>)
    ensures var r := RunSteps(w, cmds); var k := |r.world.log| - |w.log|;
      0 <= k <= |cmds| && r.world.log == w.log + cmds[..k]
      && (r.outcome.Created? ==> k == |cmds|)
      && (r.outcome.StepFailed? ==> k >= 1 && r.outcome.step == cmds[k - 1])
    decreases |cmds|
  {
    if cmds != [] {
      var e := ExecRun(w, cmds[0]);
      RunStepsCons(w, cmds);
      if e.result.Output? {
        RunStepsFailFast(e.world, cmds[1..]);
        var r := RunSteps(e.world, cmds[1..]);
        var k := |r.world.log| - |e.world.log|;
        LogAfterStep(w.log, cmds, k, r.world.log);
      } else {
        assert cmds[..1] == [cmds[0]];
      }
    }
  }

  lemma LogAfterStep(log: seq<Command>, cmds: seq<Command>, k: nat, after: seq<Command>)
    requires cmds != [] && k <= |cmds| - 1
    requires after == log + [cmds[0]] + cmds[1..][..k]
    ensures after == log + cmds[..k + 1] && |after| - |log| == k + 1
  {
    assert cmds[..k + 1] == [cmds[0]] + cmds[1..][..k];
  }

  /** A command succeeds when its session gets through and it exits 0, and only then changes the guest. */
  lemma ExecRunGuest(w: World, c: Command)
    ensures var e := ExecRun(w, c);
      (e.result.Output? <==> w.links != [] && w.links[0] && Effect(w.guest, c).0 == 0)
      && e.world.guest == if e.result.Output? then Effect(w.guest, c).1 else w.guest
  {
  }

  /** The guest after every command of `cmds` exited 0, or `None` at the first that did not. */
  function Apply(g: Guest, cmds: seq<Command>): Option<Guest>
    decreases |cmds|
  {
    if cmds == [] then Some(g)
    else
      var (rc, g1) := Effect(g, cmds[0]);
      if rc == 0 then Apply(g1, cmds[1..]) else None
  }

  /** The next `n` SSH sessions all get through. */
  predicate LinksUp(w: World, n: nat) {
    n <= |w.links| && forall k :: 0 <= k < n ==> w.links[k]
  }

  /**
   * Success of the command sequence is success of every command in the
   * guest, and leaves the guest those commands produce; over a network whose
   * sessions all get through, the converse holds too.
   */
  lemma {:induction false} RunStepsApply(w: World, cmds: seq<Command>)
    ensures RunSteps(w, cmds).outcome.Created? ==> Apply(w.guest, cmds) == Some(RunSteps(w, cmds).world.guest)
    ensures LinksUp(w, |cmds|) ==> (RunSteps(w, cmds).outcome.Created? <==> Apply(w.guest, cmds).Some?)
    decreases |cmds|
  {
    if cmds != [] {
      var e := ExecRun(w, cmds[0]);
      RunStepsCons(w, cmds);
      ExecRunGuest(w, cmds[0]);
      RunStepsApply(e.world, cmds[1..]);
      if LinksUp(w, |cmds|) {
        assert LinksUp(e.world, |cmds| - 1) by {
          assert forall k :: 0 <= k < |cmds| - 1 ==> e.world.links[k] == w.links[k + 1];
        }
      }
    }
  }

  /** The container once `create_user_over_ssh` has succeeded for `u` with password `p`. */
  function Provisioned(g: Guest, u: string, p: string, makeSudo: bool): Guest {
    g.(users := g.users + {u},
       passwords := g.passwords[u := p],
       sudoers := if makeSudo && g.sudoGroup then g.sudoers + {u} else g.sudoers)
  }

  /**
   * The commands succeed exactly when the bootstrap user has password-less
   * sudo and `u` exists or `useradd` takes it; they then add `u` (kept if
   * it existed), set its password, and put it in `sudo` only with
   * `makeSudo` and an existing group. Nothing else in the guest changes.
   */
  lemma PlanEffect(g: Guest, u: string, p: string, makeSudo: bool)
    ensures Apply(g, Plan(u, p, makeSudo)) ==
      if g.noPasswd && (u in g.users || u !in g.refused) then Some(Provisioned(g, u, p, makeSudo)) else None
  {
    var plan := Plan(u, p, makeSudo);
    assert plan[0] == SudoProbe && plan[1] == EnsureUser(u) && plan[2] == SetPassword(u, p);
    assert plan[1..][1..][1..] == plan[3..];
    if g.noPasswd && (u in g.users || u !in g.refused) {
      var g1 := if u in g.users then g else g.(users := g.users + {u});
      assert Effect(g, EnsureUser(u)) == (0, g1);
      var g2 := g1.(passwords := g1.passwords[u := p]);
      assert Effect(g1, SetPassword(u, p)) == (0, g2);
      assert g1.users == g.users + {u};
      var rest := plan[3..];
      assert plan[1..][0] == EnsureUser(u) && plan[1..][1..][0] == SetPassword(u, p);
      calc {
        Apply(g, plan);
        Apply(g, plan[1..]);
        Apply(g1, plan[1..][1..]);
        Apply(g2, rest);
      }
      if makeSudo {
        assert rest == [GrantSudo(u), VerifyUser(u)];
        var g3 := if g.sudoGroup then g2.(sudoers := g2.sudoers + {u}) else g2;
        assert Effect(g2, GrantSudo(u)) == (0, g3);
        assert rest[1..] == [VerifyUser(u)];
        assert Apply(g3, rest[1..]) == Some(g3) by {
          assert rest[1..][1..] == [];
        }
        assert g3 == Provisioned(g, u, p, makeSudo);
      } else {
        assert rest == [VerifyUser(u)];
        assert Apply(g2, rest) == Some(g2) by {
          assert rest[1..] == [];
        }
        assert g2 == Provisioned(g, u, p, makeSudo);
      }
    }
  }

  /** `useradd` is not reached for an existing user: the `id -u` guard succeeds and nothing changes. */
  lemma ExistingUserSkipped(g: Guest, u: string)
    requires g.noPasswd && u in g.users
    ensures Effect(g, EnsureUser(u)) == (0, g)
  {
  }

  /**
   * The retry loop of `wait_ssh_up` sends only `true`, at most once per
   * attempt, never changes the guest, is up exactly when one of the sessions
   * it tries gets through, and on timeout reports the latest connection
   * error (none when it made no attempt).
   */
  lemma SshLoopFacts(w: World, attempts: nat, last: Option<ExecResult>)
    ensures var r := SshLoop(w, attempts, last);
      r.world.guest == w.guest
      && |w.log| <= |r.world.log| <= |w.log| + attempts
      && r.world.log[..|w.log|] == w.log
      && (forall i :: |w.log| <= i < |r.world.log| ==> r.world.log[i] == TrueProbe)
      && (r.outcome == SshUp <==> exists k :: 0 <= k < attempts && k < |w.links| && w.links[k])
      && (r.outcome.SshTimeout? ==> r.outcome.last == if attempts == 0 then last else Some(ConnectionError))
  {
    SshLoopLog(w, attempts, last);
    SshLoopUp(w, attempts, last);
    SshLoopLast(w, attempts, last);
  }

  lemma {:induction false} SshLoopLog(w: World, attempts: nat, last: Option<ExecResult>)
    ensures var r := SshLoop(w, attempts, last);
      r.world.guest == w.guest
      && |w.log| <= |r.world.log| <= |w.log| + attempts
      && r.world.log[..|w.log|] == w.log
      && (forall i :: |w.log| <= i < |r.world.log| ==> r.world.log[i] == TrueProbe)
    decreases attempts
  {
    if attempts > 0 {
      var e := ExecRun(w, TrueProbe);
      ExecRunGuest(w, TrueProbe);
      if e.result.Output? {
        assert (w.log + [TrueProbe])[..|w.log|] == w.log;
      } else {
        SshLoopLog(e.world, attempts - 1, Some(e.result));
        var r := SshLoop(e.world, attempts - 1, Some(e.result));
        assert r.world.log[..|w.log|] == e.world.log[..|w.log|];
        assert e.world.log[..|w.log|] == w.log;
      }
    }
  }

  lemma {:induction false} SshLoopUp(w: World, attempts: nat, last: Option<ExecResult>)
    ensures SshLoop(w, attempts, last).outcome == SshUp <==> exists k :: 0 <= k < attempts && k < |w.links| && w.links[k]
    decreases attempts
  {
    if attempts > 0 {
      var e := ExecRun(w, TrueProbe);
      ExecRunGuest(w, TrueProbe);
      if e.result.Output? {
        assert w.links[0];
      } else {
        SshLoopUp(e.world, attempts - 1, Some(e.result));
        if exists k :: 0 <= k < attempts && k < |w.links| && w.links[k] {
          var k :| 0 <= k < attempts && k < |w.links| && w.links[k];
          assert k > 0 && e.world.links[k - 1];
        }
        if exists k :: 0 <= k < attempts - 1 && k < |e.world.links| && e.world.links[k] {
          var k :| 0 <= k < attempts - 1 && k < |e.world.links| && e.world.links[k];
          assert w.links[k + 1];
        }
      }
    }
  }

  lemma {:induction false} SshLoopLast(w: World, attempts: nat, last: Option<ExecResult>)
    ensures var r := SshLoop(w, attempts, last);
      r.outcome.SshTimeout? ==> r.outcome.last == if attempts == 0 then last else Some(ConnectionError)
    decreases attempts
  {
    if attempts > 0 {
      var e := ExecRun(w, TrueProbe);
      ExecRunGuest(w, TrueProbe);
      if !e.result.Output? {
        assert e.result == ConnectionError;
        SshLoopLast(e.world, attempts - 1, Some(e.result));
      }
    }
  }

  /** `after` is `before`, then `probes` commands `true`, then the first `k` commands of `plan`. */
  predicate SentInOrder(before: seq<Command>, after: seq<Command>, plan: seq<Command>, probes: nat, k: nat) {
    |before| + probes + k == |after| && k <= |plan|
    && after == before + after[|before|..|before| + probes] + plan[..k]
    && forall i :: |before| <= i < |before| + probes ==> after[i] == TrueProbe
  }

  /**
   * `create_user_over_ssh` sends, in this order: nothing at all for a name
   * that is not alphanumeric; otherwise `true` probes only, then a prefix of
   * `Plan`, which is all of it on success and ends at the failing command
   * otherwise.
   */
  lemma CreateUserOrder(w: World, u: string, p: string, makeSudo: bool, connects: seq<bool>, attempts: nat)
    ensures var r := CreateUserRun(w, u, p, makeSudo, connects, attempts);
      (r.outcome == InvalidUser <==> !IsAlnum(u)) && (r.outcome == InvalidUser ==> r.world == w)
    ensures var r := CreateUserRun(w, u, p, makeSudo, connects, attempts); var plan := Plan(u, p, makeSudo);
      exists probes: nat, k: nat :: SentInOrder(w.log, r.world.log, plan, probes, k)
        && (r.outcome.SshNotReady? ==> k == 0)
        && (r.outcome.Created? ==> k == |plan|)
        && (r.outcome.StepFailed? ==> k >= 1 && r.outcome.step == plan[k - 1])
  {
    NameCheckedFirst(w, u, p, makeSudo, connects, attempts);
    CreateUserLog(w, u, p, makeSudo, connects, attempts);
  }

  /** The log part of `CreateUserOrder`. */
  lemma CreateUserLog(w: World, u: string, p: string, makeSudo: bool, connects: seq<bool>, attempts: nat)
    ensures var r := CreateUserRun(w, u, p, makeSudo, connects, attempts); var plan := Plan(u, p, makeSudo);
      exists probes: nat, k: nat :: SentInOrder(w.log, r.world.log, plan, probes, k)
        && (r.outcome.SshNotReady? ==> k == 0)
        && (r.outcome.Created? ==> k == |plan|)
        && (r.outcome.StepFailed? ==> k >= 1 && r.outcome.step == plan[k - 1])
  {
    var plan := Plan(u, p, makeSudo);
    if !IsAlnum(u) || true !in connects {
      assert CreateUserRun(w, u, p, makeSudo, connects, attempts).world == w;
      SentAfterProbes(w.log, w.log, w.log, plan, 0, 0);
    } else {
      var up := SshLoop(w, attempts, None);
      SshLoopLog(w, attempts, None);
      var probes := |up.world.log| - |w.log|;
      if up.outcome.SshUp? {
        assert CreateUserRun(w, u, p, makeSudo, connects, attempts) == RunSteps(up.world, plan);
        PlanAfterProbes(w.log, up.world, plan, probes);
      } else {
        assert CreateUserRun(w, u, p, makeSudo, connects, attempts).world == up.world;
        SentAfterProbes(w.log, up.world.log, up.world.log, plan, probes, 0);
      }
    }
  }

  lemma PlanAfterProbes(before: seq<Command>, mid: World, plan: seq<Command>, probes: nat)
    requires |mid.log| == |before| + probes && mid.log[..|before|] == before
    requires forall i :: |before| <= i < |mid.log| ==> mid.log[i] == TrueProbe
    ensures var r := RunSteps(mid, plan);
      exists k: nat :: SentInOrder(before, r.world.log, plan, probes, k)
        && (r.outcome.Created? ==> k == |plan|)
        && (r.outcome.StepFailed? ==> k >= 1 && r.outcome.step == plan[k - 1])
  {
    var r := RunSteps(mid, plan);
    RunStepsFailFast(mid, plan);
    var k := |r.world.log| - |mid.log|;
    SentAfterProbes(before, mid.log, r.world.log, plan, probes, k);
  }

  /** The name check comes first: a name that is not alphanumeric, and only such a name, is refused with nothing sent. */
  lemma NameCheckedFirst(w: World, u: string, p: string, makeSudo: bool, connects: seq<bool>, attempts: nat)
    ensures var r := CreateUserRun(w, u, p, makeSudo, connects, attempts);
      (r.outcome == InvalidUser <==> !IsAlnum(u)) && (r.outcome == InvalidUser ==> r.world == w)
  {
  }

  lemma SentAfterProbes(before: seq<Command>, mid: seq<Command>, after: seq<Command>, plan: seq<Command>, probes: nat, k: nat)
    requires |mid| == |before| + probes && mid[..|before|] == before
    requires forall i :: |before| <= i < |mid| ==> mid[i] == TrueProbe
    requires k <= |plan| && after == mid + plan[..k]
    ensures SentInOrder(before, after, plan, probes, k)
  {
    assert mid == before + mid[|before|..];
    assert after[|before|..|before| + probes] == mid[|before|..];
  }

  /**
   * On success the container holds `u` with password `p` (in `sudo` when
   * asked for and the group exists), the bootstrap user had password-less
   * sudo, and nothing else in the guest changed.
   */
  lemma CreatedMeansProvisioned(w: World, u: string, p: string, makeSudo: bool, connects: seq<bool>, attempts: nat)
    requires CreateUserRun(w, u, p, makeSudo, connects, attempts).outcome.Created?
    ensures var g := CreateUserRun(w, u, p, makeSudo, connects, attempts).world.guest;
      IsAlnum(u) && w.guest.noPasswd && g == Provisioned(w.guest, u, p, makeSudo)
    ensures var g := CreateUserRun(w, u, p, makeSudo, connects, attempts).world.guest;
      u in g.users && u in g.passwords && g.passwords[u] == p
  {
    var up := SshLoop(w, attempts, None);
    SshLoopFacts(w, attempts, None);
    RunStepsApply(up.world, Plan(u, p, makeSudo));
    PlanEffect(w.guest, u, p, makeSudo);
  }

  /**
   * Over a network whose sessions all get through, with the port open and at
   * least one SSH attempt before the deadline, an alphanumeric user is
   * created exactly when the bootstrap user has password-less sudo and the
   * name exists already or `useradd` accepts it.
   */
  lemma CreatedIffReliable(w: World, u: string, p: string, makeSudo: bool, connects: seq<bool>, attempts: nat)
    requires IsAlnum(u) && true in connects && attempts >= 1
    requires LinksUp(w, 1 + |Plan(u, p, makeSudo)|)
    ensures CreateUserRun(w, u, p, makeSudo, connects, attempts).outcome.Created? <==>
      w.guest.noPasswd && (u in w.guest.users || u !in w.guest.refused)
  {
    var e := ExecRun(w, TrueProbe);
    assert SshLoop(w, attempts, None) == Waited(SshUp, e.world);
    var plan := Plan(u, p, makeSudo);
    assert LinksUp(e.world, |plan|) by {
      assert forall k :: 0 <= k < |plan| ==> e.world.links[k] == w.links[k + 1];
    }
    RunStepsApply(e.world, plan);
    PlanEffect(w.guest, u, p, makeSudo);
  }

  lemma ProvisionedIdempotent(g: Guest, u: string, p: string, makeSudo: bool)
    ensures Provisioned(Provisioned(g, u, p, makeSudo), u, p, makeSudo) == Provisioned(g, u, p, makeSudo)
  {
    var g1 := Provisioned(g, u, p, makeSudo);
    assert g1.users + {u} == g1.users;
    assert g1.passwords[u := p] == g1.passwords;
    if makeSudo && g.sudoGroup {
      assert g1.sudoers + {u} == g1.sudoers;
    }
  }

  /**
   * Running `create_user_over_ssh` again after a success, over a network
   * whose sessions get through, succeeds and leaves the container as it was:
   * the existing user is kept and the password set again to the same value.
   */
  lemma CreateUserIdempotent(w: World, u: string, p: string, makeSudo: bool, connects: seq<bool>, attempts: nat,
                             connects': seq<bool>, attempts': nat)
    requires CreateUserRun(w, u, p, makeSudo, connects, attempts).outcome.Created?
    requires true in connects' && attempts' >= 1
    requires LinksUp(CreateUserRun(w, u, p, makeSudo, connects, attempts).world, 1 + |Plan(u, p, makeSudo)|)
    ensures var w' := CreateUserRun(w, u, p, makeSudo, connects, attempts).world;
      var r := CreateUserRun(w', u, p, makeSudo, connects', attempts');
      r.outcome.Created? && r.world.guest == w'.guest
  {
    var w' := CreateUserRun(w, u, p, makeSudo, connects, attempts).world;
    CreatedMeansProvisioned(w, u, p, makeSudo, connects, attempts);
    CreatedIffReliable(w', u, p, makeSudo, connects', attempts');
    CreatedMeansProvisioned(w', u, p, makeSudo, connects', attempts');
    ProvisionedIdempotent(w.guest, u, p, makeSudo);
  }

  /**
   * With the corrected `sudo_cmd`, every wrapped command starts with
   * `sudo -n bash -lc ` and the login shell hands `bash` exactly its script;
   * in the chpasswd script the `echo` argument reads back as `u:p`.
   */
  lemma RenderDelivers(c: Command)
    requires UsesSudoCmd(c)
    ensures Shell.SudoPrefix <= Render(c)
    ensures Shell.ReadWord(Render(c)[|Shell.SudoPrefix|..]) == Some(Script(c))
    ensures c.SetPassword? ==> Shell.ReadWord(Shell.ShellQuote(c.user + ":" + c.pass)) == Some(c.user + ":" + c.pass)
  {
    Shell.SudoCmdDelivers(Script(c));
    if c.SetPassword? {
      Shell.ShellQuoteReadsBack(c.user + ":" + c.pass);
    }
  }

  /**
   * `sudo_cmd` as written, on the chpasswd step for an alphanumeric user
   * `u` and the password "$1": the login shell hands `bash` a script whose
   * `echo` prints "u:", so chpasswd sets an empty password.
   */
  lemma EmptyPasswordAsWritten(u: string)
    requires IsAlnum(u)
    ensures Shell.ReadWord(RenderAsWritten(SetPassword(u, "$1"))[|Shell.SudoPrefix|..]) == Some("echo '" + u + ":' | chpasswd")
  {
    var a, b := "echo '" + u + ":", "' | chpasswd";
    ScriptShape(u);
    NoSpecialInName(u);
    assert RenderAsWritten(SetPassword(u, "$1")) == Shell.SudoCmdAsWritten(a + "$1" + b);
    Shell.AsWrittenReads(a, b);
    EchoJoin(u);
  }

  lemma EchoJoin(u: string)
    ensures ("echo '" + u + ":") + "' | chpasswd" == "echo '" + u + ":' | chpasswd"
  {
    assert ":" + "' | chpasswd" == ":' | chpasswd";
  }

  lemma ScriptShape(u: string)
    requires IsAlnum(u)
    ensures Script(SetPassword(u, "$1")) == ("echo '" + u + ":") + "$1" + "' | chpasswd"
  {
    var q := u + ":" + "$1";
    QuotedWithDollar(q, |u| + 1);
    assert Script(SetPassword(u, "$1")) == "echo " + ("'" + q + "'") + " | chpasswd";
    EchoRegroup(u);
  }

  lemma EchoRegroup(u: string)
    ensures "echo " + ("'" + (u + ":" + "$1") + "'") + " | chpasswd" == ("echo '" + u + ":") + "$1" + "' | chpasswd"
  {
    assert "echo " + "'" == "echo '";
    assert "'" + " | chpasswd" == "' | chpasswd";
  }

  lemma QuotedWithDollar(q: string, i: nat)
    requires i < |q| && q[i] == '$'
    requires forall k :: 0 <= k < |q| ==> q[k] != '\''
    ensures Shell.ShellQuote(q) == "'" + q + "'"
  {
    assert !Shell.IsSafe(q[i]);
    Shell.QuoteInsideNoQuote(q);
  }

  lemma NoSpecialInName(u: string)
    requires IsAlnum(u)
    ensures forall i :: 0 <= i < |"echo '" + u + ":"| ==> Shell.PrintableInDouble(("echo '" + u + ":")[i])
  {
    var a := "echo '" + u + ":";
    assert forall i :: 0 <= i < |u| ==> a[i + 6] == u[i];
  }

  // -------------------------------------------- sudo_cmd as written, lemmas

  /** A password that `sudo_cmd` as written delivers intact: printable ASCII without `'`, `"`, `\`, `$` or a backtick. */
  predicate PlainPassword(p: string) {
    forall i :: 0 <= i < |p| ==> Shell.PrintableInDouble(p[i]) && p[i] != '\''
  }

  predicate AllInSingle(s: string) {
    forall i :: 0 <= i < |s| ==> Shell.PrintableInSingle(s[i])
  }

  lemma AlnumInSingle(u: string)
    requires IsAlnum(u)
    ensures AllInSingle(u)
  {
  }

  lemma InSingleAppend(a: string, b: string)
    requires AllInSingle(a) && AllInSingle(b)
    ensures AllInSingle(a + b)
  {
  }

  /** A script of printable ASCII without `'` or `\` arrives intact: `repr` puts it in single quotes. */
  lemma PlainScriptDelivered(c: Command)
    requires UsesSudoCmd(c) && AllInSingle(Script(c))
    ensures DeliveredAsWritten(c)
  {
    assert RenderAsWritten(c) == Shell.SudoCmdAsWritten(Script(c));
    Shell.SudoCmdAsWrittenPlain(Script(c));
  }

  /** A script with a `'` and otherwise nothing the shell expands between double quotes arrives intact. */
  lemma QuotedScriptDelivered(c: Command)
    requires UsesSudoCmd(c) && '\'' in Script(c) && AllInDouble(Script(c))
    ensures DeliveredAsWritten(c)
  {
    assert RenderAsWritten(c) == Shell.SudoCmdAsWritten(Script(c));
    Shell.SudoCmdAsWrittenDouble(Script(c));
  }

  // The fixed text of the scripts, character by character.

  lemma EnsureUserText()
    ensures AllInSingle("id -u ") && AllInSingle(" >/dev/null 2>&1 || useradd -m -s /bin/bash ")
  {
  }

  lemma GrantSudoText()
    ensures AllInSingle("getent group sudo >/dev/null 2>&1") && AllInSingle(" || exit 0; usermod -aG sudo ")
  {
  }

  lemma VerifyUserText()
    ensures AllInSingle("getent passwd ")
  {
  }

  lemma EchoText()
    ensures AllInSingle("echo ") && AllInSingle(" | chpasswd")
    ensures AllInDouble("echo ") && AllInDouble(" | chpasswd") && AllInDouble("'")
  {
  }

  lemma EnsureUserPlain(u: string)
    requires IsAlnum(u)
    ensures AllInSingle(Script(EnsureUser(u)))
  {
    Shell.AlnumUnquoted(u);
    var a, b := "id -u ", " >/dev/null 2>&1 || useradd -m -s /bin/bash ";
    EnsureUserText();
    AlnumInSingle(u);
    InSingleAppend(a, u);
    InSingleAppend(a + u, b);
    InSingleAppend(a + u + b, u);
  }

  lemma GrantSudoPlain(u: string)
    requires IsAlnum(u)
    ensures AllInSingle(Script(GrantSudo(u)))
  {
    Shell.AlnumUnquoted(u);
    var a, b := "getent group sudo >/dev/null 2>&1", " || exit 0; usermod -aG sudo ";
    GrantSudoText();
    AlnumInSingle(u);
    InSingleAppend(a, b);
    InSingleAppend(a + b, u);
  }

  lemma VerifyUserPlain(u: string)
    requires IsAlnum(u)
    ensures AllInSingle(Script(VerifyUser(u)))
  {
    Shell.AlnumUnquoted(u);
    var a := "getent passwd ";
    VerifyUserText();
    AlnumInSingle(u);
    InSingleAppend(a, u);
  }

  /**
   * The chpasswd step: when `u:p` needs no quoting the script holds no
   * quote at all, and otherwise `shlex.quote` puts it in single quotes and
   * `repr` the whole script in double quotes; either way it arrives intact.
   */
  lemma SetPasswordDelivered(u: string, p: string)
    requires IsAlnum(u) && PlainPassword(p)
    ensures DeliveredAsWritten(SetPassword(u, p))
  {
    var q := u + ":" + p;
    if Shell.AllSafe(q) {
      SafePasswordPlain(u, p);
      PlainScriptDelivered(SetPassword(u, p));
    } else {
      QuotedPasswordScript(u, p);
      QuotedScriptDelivered(SetPassword(u, p));
    }
  }

  lemma SafePasswordPlain(u: string, p: string)
    requires Shell.AllSafe(u + ":" + p)
    ensures AllInSingle(Script(SetPassword(u, p)))
  {
    var q := u + ":" + p;
    var a, b := "echo ", " | chpasswd";
    EchoText();
    assert AllInSingle(q);
    InSingleAppend(a, q);
    InSingleAppend(a + q, b);
  }

  predicate AllInDouble(s: string) {
    forall i :: 0 <= i < |s| ==> Shell.PrintableInDouble(s[i])
  }

  lemma InDoubleAppend(a: string, b: string)
    requires AllInDouble(a) && AllInDouble(b)
    ensures AllInDouble(a + b)
  {
  }

  lemma QuotedPasswordScript(u: string, p: string)
    requires IsAlnum(u) && PlainPassword(p) && !Shell.AllSafe(u + ":" + p)
    ensures '\'' in Script(SetPassword(u, p)) && AllInDouble(Script(SetPassword(u, p)))
  {
    var q := u + ":" + p;
    Shell.QuoteInsideNoQuote(q);
    assert Shell.ShellQuote(q) == "'" + q + "'";
    PairInDouble(u, p);
    EchoInDouble(q);
  }

  lemma PairInDouble(u: string, p: string)
    requires IsAlnum(u) && PlainPassword(p)
    ensures AllInDouble(u + ":" + p)
  {
    assert AllInDouble(u);
    assert AllInDouble(":");
    assert AllInDouble(p);
    InDoubleAppend(u, ":");
    InDoubleAppend(u + ":", p);
  }

  lemma EchoInDouble(q: string)
    requires AllInDouble(q)
    ensures var s := "echo " + ("'" + q + "'") + " | chpasswd"; '\'' in s && AllInDouble(s)
  {
    var a, b, quote := "echo ", " | chpasswd", "'";
    EchoText();
    InDoubleAppend(quote, q);
    InDoubleAppend(quote + q, quote);
    InDoubleAppend(a, quote + q + quote);
    InDoubleAppend(a + (quote + q + quote), b);
    assert '\'' in quote + q + quote;
  }

  /** For an alphanumeric name and a plain password, every command of the plan arrives intact as written. */
  lemma PlanDeliveredAsWritten(u: string, p: string, makeSudo: bool)
    requires IsAlnum(u) && PlainPassword(p)
    ensures forall k :: 0 <= k < |Plan(u, p, makeSudo)| ==> DeliveredAsWritten(Plan(u, p, makeSudo)[k])
  {
    var plan := Plan(u, p, makeSudo);
    PlanShape(u, p, makeSudo);
    forall k | 0 <= k < |plan|
      ensures DeliveredAsWritten(plan[k])
    {
      if k == 1 {
        EnsureUserPlain(u);
        PlainScriptDelivered(EnsureUser(u));
      } else if k == 2 {
        SetPasswordDelivered(u, p);
      } else if k == 3 && makeSudo {
        GrantSudoPlain(u);
        PlainScriptDelivered(GrantSudo(u));
      } else if k > 0 {
        VerifyUserPlain(u);
        PlainScriptDelivered(VerifyUser(u));
      }
    }
  }

  /** Commands that all arrive intact run as with the corrected `sudo_cmd`. */
  lemma {:induction false} RunStepsAsWrittenAgrees(w: World, cmds: seq<Command>, garbled: (Guest, Command) -> (int, Guest))
    requires forall k :: 0 <= k < |cmds| ==> DeliveredAsWritten(cmds[k])
    ensures RunStepsAsWritten(w, cmds, garbled) == RunSteps(w, cmds)
    decreases |cmds|
  {
    if cmds != [] {
      var e := ExecRun(w, cmds[0]);
      assert ExecRunAsWritten(w, cmds[0], garbled) == e;
      RunStepsCons(w, cmds);
      assert forall k :: 0 <= k < |cmds| - 1 ==> cmds[1..][k] == cmds[k + 1];
      RunStepsAsWrittenAgrees(e.world, cmds[1..], garbled);
    }
  }

  /**
   * For a plain password, `create_user_over_ssh` as written sends the same
   * commands, leaves the same guest and ends the same way as with the
   * corrected `sudo_cmd`, whatever a changed script would have done.
   */
  lemma CreateUserAsWrittenAgrees(w: World, u: string, p: string, makeSudo: bool, connects: seq<bool>, attempts: nat,
                                  garbled: (Guest, Command) -> (int, Guest))
    requires PlainPassword(p)
    ensures CreateUserRunAsWritten(w, u, p, makeSudo, connects, attempts, garbled)
         == CreateUserRun(w, u, p, makeSudo, connects, attempts)
  {
    if IsAlnum(u) {
      var up := WaitSshUpRun(w, connects, attempts);
      if up.outcome.SshUp? {
        PlanDeliveredAsWritten(u, p, makeSudo);
        RunStepsAsWrittenAgrees(up.world, Plan(u, p, makeSudo), garbled);
      }
    }
  }

  /** `CreatedMeansProvisioned` for the code as written, for a plain password. */
  lemma CreatedMeansProvisionedAsWritten(w: World, u: string, p: string, makeSudo: bool, connects: seq<bool>, attempts: nat,
                                         garbled: (Guest, Command) -> (int, Guest))
    requires PlainPassword(p)
    requires CreateUserRunAsWritten(w, u, p, makeSudo, connects, attempts, garbled).outcome.Created?
    ensures var g := CreateUserRunAsWritten(w, u, p, makeSudo, connects, attempts, garbled).world.guest;
      IsAlnum(u) && w.guest.noPasswd && g == Provisioned(w.guest, u, p, makeSudo)
      && u in g.users && u in g.passwords && g.passwords[u] == p
  {
    CreateUserAsWrittenAgrees(w, u, p, makeSudo, connects, attempts, garbled);
    CreatedMeansProvisioned(w, u, p, makeSudo, connects, attempts);
  }

  /** `CreatedIffReliable` for the code as written, for a plain password. */
  lemma CreatedIffReliableAsWritten(w: World, u: string, p: string, makeSudo: bool, connects: seq<bool>, attempts: nat,
                                    garbled: (Guest, Command) -> (int, Guest))
    requires PlainPassword(p)
    requires IsAlnum(u) && true in connects && attempts >= 1
    requires LinksUp(w, 1 + |Plan(u, p, makeSudo)|)
    ensures CreateUserRunAsWritten(w, u, p, makeSudo, connects, attempts, garbled).outcome.Created? <==>
      w.guest.noPasswd && (u in w.guest.users || u !in w.guest.refused)
  {
    CreateUserAsWrittenAgrees(w, u, p, makeSudo, connects, attempts, garbled);
    CreatedIffReliable(w, u, p, makeSudo, connects, attempts);
  }

  /** As written, the chpasswd script for the password "$1" does not arrive intact. */
  lemma DollarOneGarbled(u: string)
    requires IsAlnum(u)
    ensures !DeliveredAsWritten(SetPassword(u, "$1"))
  {
    EmptyPasswordAsWritten(u);
    ScriptShape(u);
    assert |Script(SetPassword(u, "$1"))| != |"echo '" + u + ":' | chpasswd"|;
  }
}
