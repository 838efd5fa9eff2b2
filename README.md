# Proxmox-Portal provisioning core, modelled in Dafny

Proxmox-Portal is a self-service portal: users request an LXC container of
some tier (a `VmType`), and an administrator accepts (`accetta`) or rejects
(`rifiuta`) the request. Accepting clones a template container on the Proxmox
hypervisor, sets its cores, memory and hostname, starts it, waits for its DHCP
address and records access data for the request. `utils/ssh.py` holds the
tooling to create an account inside a guest over SSH.

The project models that core:

- `text.dfy` (module `Text`): Python's `str.strip`, `str.split` and decimal
  digit strings, which the other modules build on.
- `ipv4.dfy` (module `Ipv4`): `_normalize_ip` and `_is_valid_ipv4`. Both files
  define them, identically. The model includes the strict dotted-quad parser of
  Python's `ipaddress` and the loopback and link-local ranges.
- `task_waiter.dfy` (module `TaskWaiter`): `wait_task`, which polls a Proxmox
  task until it stops, fails or runs out of time.
- `discovery.dfy` (module `Discovery`): `wait_lxc_ipv4_from_interfaces`. It
  sorts interfaces with `eth0` first (a stable sort), takes the first valid
  address, and polls until its deadline.
- `shell.dfy` (module `Shell`):
  - `shlex.quote`, and Python's `repr` for strings;
  - `sudo_cmd` as written, and a corrected `sudo_cmd`;
  - how a POSIX shell reads one word (plain, single-quoted and double-quoted
    text). This is what shows whether a command reaches `bash -lc` intact.
- `ssh.dfy` (module `Bootstrap`): `gen_password`, `wait_port`, `ssh_exec`,
  `wait_ssh_up`, and `create_user_over_ssh`.
  - The guest is a small state machine: accounts, passwords, the `sudo` group
    and password-less sudo. The commands act on it.
  - The bootstrap is modelled with the corrected `sudo_cmd`, and again as
    written, where a script that arrives changed has an unknown effect.
  - The class `Remote` runs commands against a guest, and its methods are
    proved equal to the specification functions.
- `provisioning.dfy` (module `Provisioning`): `accetta` and `rifiuta`.
  - The hypervisor is a script of answers. The call sequence it receives is
    part of the result.
  - The database is the class `Store`: request statuses and credential rows
    keyed by request id, plus the history of what each commit wrote.

Time, randomness and the network become parameters:
- A polling loop's deadline is the sequence of replies that arrive before it
  expires.
- The SSH readiness wait has a budget of attempts.
- `secrets.choice` is a function from draw number to index.
- The next SSH sessions are a sequence of "link up" flags.

## Model

| member | source | states |
|---|---|---|
| Text.Strip | utils/interfaces.py:11 | the result has no leading or trailing whitespace and is the input with only surrounding whitespace removed |
| Text.TakeUntil | utils/interfaces.py:11 | `split("/", 1)[0]` is the longest prefix without `/`; when it is shorter than the input, a `/` follows it |
| Text.Split | blueprints/admin.py:38 | the parts contain no separator, there is at least one, and joining them gives back the input |
| Text.SplitJoin | blueprints/admin.py:38 | splitting a join of separator-free parts gives back the parts |
| Text.NatToString | blueprints/admin.py:132 | the decimal text of `n` is canonical (no leading zero) and denotes `n` |
| Text.CanonicalRoundTrip | blueprints/admin.py:38 | a canonical digit string is the decimal text of its own value |
| Text.IsAlnum | utils/ssh.py:100 | `str.isalnum` on ASCII: the name is non-empty and every character is a letter or a digit (definition; `Bootstrap.NameCheckedFirst` and `Shell.AlnumUnquoted` state what follows from it) |
| Text.IntToString | blueprints/admin.py:132 | `str` of an integer: canonical decimal digits (no leading zero) denoting the number, or for a negative number `-` followed by canonical digits denoting its magnitude |
| Ipv4.Normalize | blueprints/admin.py:32-33 | the result has no `/` and no surrounding whitespace, and is the text before the first `/` with whitespace trimmed |
| Ipv4.NormalizeIdempotent | utils/interfaces.py:5-11 | normalising twice is normalising once |
| Ipv4.Parse | blueprints/admin.py:38 | `ipaddress.ip_address` for IPv4 text: exactly four dot-separated decimal octets, each below 256 and without a leading zero (definition; `Ipv4.ParseIff` states it) |
| Ipv4.ParseIff | blueprints/admin.py:38 | text parses to address `x` exactly when it is the canonical dotted quad of `x` |
| Ipv4.FormatParse | blueprints/admin.py:38 | every address parses back from its dotted-quad text |
| Ipv4.ParseFormat | blueprints/admin.py:38 | whatever parses is the canonical text of its address (no leading zeros, no extra parts) |
| Ipv4.IsLoopback | blueprints/admin.py:41 | `is_loopback` of an IPv4 address: inside 127.0.0.0/8 (definition; `Ipv4.IsValidIff` states it) |
| Ipv4.IsLinkLocal | blueprints/admin.py:42 | `is_link_local` of an IPv4 address: inside 169.254.0.0/16 (definition; `Ipv4.IsValidIff` states it) |
| Ipv4.IsValid | blueprints/admin.py:35-45 | `_is_valid_ipv4`: normalise, parse, and refuse loopback and link-local; a text that does not parse is not valid (definition; `Ipv4.IsValidIff` states it) |
| Ipv4.IsValidIff | blueprints/admin.py:35-45 | `_is_valid_ipv4` holds exactly when the normalised text is the dotted quad of an address outside 127.0.0.0/8 and 169.254.0.0/16 |
| Ipv4.NormalizePreservesValid | utils/interfaces.py:14-36 | a valid text stays valid once normalised, and its normal form is a fixed point |
| Ipv4.CidrSuffixIgnored | utils/interfaces.py:5-36 | `a.b.c.d/suffix` normalises to `a.b.c.d`, and its validity is decided by the address alone |
| TaskWaiter.WaitTask | blueprints/admin.py:16-30 | the polling loop returns exactly the outcome and number of polls of the specification `Wait` |
| TaskWaiter.Wait | blueprints/admin.py:21-30 | at most one poll per reply that arrives before the deadline |
| TaskWaiter.WaitStopsAtFirstAnswer | blueprints/admin.py:22-29 | every reply before the last one polled was "still running", and a non-timeout ends on a reply that is not |
| TaskWaiter.CompletedIff | blueprints/admin.py:24-27 | the wait succeeds exactly when the first reply that is not "still running" is `stopped` with exitstatus `OK` |
| TaskWaiter.DecidedByFirstAnswer | blueprints/admin.py:23-28 | the first stopped reply (or failing status call) alone decides the outcome, after exactly that many polls |
| TaskWaiter.TimeoutIff | blueprints/admin.py:22-30 | a timeout happens exactly when every reply before the deadline says "still running", and then every reply was polled |
| Discovery.Eth0First | blueprints/admin.py:58 | the `sorted` call with key 0 for `eth0` and 1 otherwise (definition; `Discovery.Eth0FirstIsStableSort` states it) |
| Discovery.Candidate | blueprints/admin.py:61-71 | the address one interface offers: a valid string `inet`, normalised, or the first valid string of a list `inet` (definition; `Discovery.CandidateClean` states it) |
| Discovery.FromItems | blueprints/admin.py:68-71 | the first string item of an `inet` list that is a valid address, normalised (definition; `Discovery.FromItemsClean` states it) |
| Discovery.FirstOffered | blueprints/admin.py:60-71 | the `for nic in eth0_first` loop with its early return: the first address an interface offers, in list order (definition; `Discovery.OfferedPrefersEth0` and `Discovery.FirstOfferedAppend` state it) |
| Discovery.Select | blueprints/admin.py:57-71 | the address taken from one reply: the first candidate along the eth0-first order (definition; `Discovery.SelectPrefersEth0` states it) |
| Discovery.CandidateClean | blueprints/admin.py:61-71 | an address taken from one interface is valid and already normalised |
| Discovery.FromItemsClean | blueprints/admin.py:68-71 | an address taken from an `inet` list is valid and already normalised |
| Discovery.FirstCandidateClean | blueprints/admin.py:60-71 | the first address found along an interface list is valid and normalised |
| Discovery.Eth0FirstIsStableSort | blueprints/admin.py:58 | the eth0-first order is a permutation, is sorted by key, and keeps the original order within each key |
| Discovery.FirstOfferedAppend | blueprints/admin.py:60-71 | scanning a concatenation finds the first list's address if it has one, otherwise the second's |
| Discovery.FirstOfRankNone | blueprints/admin.py:60-71 | within one sort key, the scan finds nothing exactly when no interface of that key offers an address |
| Discovery.FirstOfRank | blueprints/admin.py:60-71 | within one sort key, the address found comes from an interface of that key, and no interface of that key before it in the original order has one |
| Discovery.OfferedPrefersEth0 | blueprints/admin.py:57-71 | for any way of reading an address off an interface, the eth0-first scan finds nothing exactly when no interface has one, and otherwise no interface with one comes before the chosen one in eth0-first order |
| Discovery.SelectPrefersEth0 | blueprints/admin.py:57-71 | a poll selects nothing exactly when no interface has a valid address; otherwise the selected interface has no interface with an address before it in the eth0-first order |
| Discovery.PrefersEth0Example | utils/interfaces.py:58-67 | with another interface listed first, a routable `eth0` address in CIDR form is the one returned, without its suffix |
| Discovery.Wait | blueprints/admin.py:48-75 | at most one poll per reply that arrives before the deadline |
| Discovery.WaitClean | blueprints/admin.py:48-75 | an address that discovery returns is valid and already normalised |
| Discovery.WaitIpv4 | blueprints/admin.py:48-75 | the polling loop returns exactly the outcome and number of polls of the specification `Wait` |
| Discovery.ScanNics | blueprints/admin.py:57-71 | the loop over the eth0-first order returns exactly the address `Select` picks |
| Discovery.ScanNic | blueprints/admin.py:61-71 | the statements for one interface return exactly its `Candidate` |
| Discovery.ScanItems | blueprints/admin.py:68-71 | the loop over a list-valued `inet` returns exactly `FromItems` |
| Discovery.DecidedByFirstAnswer | utils/interfaces.py:54-73 | the first reply that yields an address (or raises) decides the outcome, after exactly that many polls |
| Discovery.TimeoutIff | utils/interfaces.py:52-77 | discovery times out exactly when no reply before the deadline yields an address, and then every reply was polled |
| Shell.ShellQuote | utils/ssh.py:109 | `shlex.quote`: `''` for the empty text, safe text unchanged, otherwise the text in single quotes with each `'` closed, escaped and reopened (definition; `Shell.ShellQuoteReadsBack` states it) |
| Shell.PyRepr | utils/ssh.py:88 | Python's `repr` of a string: single quotes unless the text holds `'` and no `"`, with `\`, the chosen quote and non-printable characters escaped (definition; `Shell.ReprOfScript` and `Shell.SudoCmdAsWrittenPlain` state it) |
| Shell.Read | utils/ssh.py:88 | how the login shell reads one word of the command: plain, single-quoted and double-quoted text, with `$1`-`$9` empty inside double quotes (definition; `Shell.ShellQuoteReadsBack` and `Shell.PositionalVanishes` state it) |
| Shell.ShellQuoteReadsBack | utils/ssh.py:109 | a POSIX shell reads `shlex.quote(s)` back as the single word `s`, for every `s` |
| Shell.AlnumUnquoted | utils/ssh.py:99-109 | a user name that passes the alphanumeric check is left unquoted |
| Shell.SudoCmdAsWritten | utils/ssh.py:82-88 | the command starts with `sudo -n bash -lc `, followed by Python's `repr` of the script |
| Shell.SudoCmd | utils/ssh.py:82-88 | the corrected command starts with `sudo -n bash -lc `, followed by the shell-quoted script |
| Shell.SudoCmdDelivers | utils/ssh.py:82-88 | with the corrected `sudo_cmd`, the remote shell hands `bash -lc` exactly the script, for every script |
| Shell.SudoCmdAsWrittenPlain | utils/ssh.py:88 | as written, a script of printable ASCII without `'` or `\` reaches `bash -lc` unchanged |
| Shell.SudoCmdAsWrittenDouble | utils/ssh.py:88 | as written, a script holding `'` and otherwise only printable ASCII other than `"`, `\`, `$` and the backtick reaches `bash -lc` unchanged |
| Shell.ReprOfScript | utils/ssh.py:88 | `repr` of a script holding `'` and no `"` is that script in double quotes |
| Shell.PositionalVanishes | utils/ssh.py:88 | inside double quotes the remote shell replaces `$1` by nothing |
| Shell.AsWrittenReads | utils/ssh.py:119-122 | as written, the `chpasswd` script with `$1` in the password reaches `bash -lc` without it |
| Bootstrap.AlphabetIsCharset | utils/ssh.py:14 | the 70 password characters are exactly the ASCII letters, the digits and `!@#$%_-+` |
| Bootstrap.GenPassword | utils/ssh.py:6-21 | the password has `n` characters (none for `n <= 0`), the i-th is the alphabet entry drawn at step i, and all come from the alphabet |
| Bootstrap.WaitPort | utils/ssh.py:24-33 | the port counts as open exactly when some connection attempt before the deadline succeeds; it stops at the first one, otherwise every attempt was used |
| Bootstrap.Effect | utils/ssh.py:106-136 | what each command does in the guest once `bash -lc` runs its script: `sudo -n` fails without password-less sudo, `useradd` only for a new name the guest accepts, `chpasswd` only for an existing account, `usermod` only when the `sudo` group exists (definition; `Bootstrap.PlanEffect` states it) |
| Bootstrap.Script | utils/ssh.py:111-135 | the four scripts the bootstrap wraps with `sudo_cmd`: `useradd` guarded by `id -u`, `echo … \| chpasswd`, `usermod` guarded by `getent group sudo`, and `getent passwd`, each with the name shell-quoted (definition; `Bootstrap.RenderDelivers` and `Bootstrap.PlanDeliveredAsWritten` state it) |
| Bootstrap.Render | utils/ssh.py:107-135 | the text `ssh_exec` sends with the corrected `sudo_cmd`: `true`, `sudo -n true`, or the wrapped script (definition; `Bootstrap.RenderDelivers` states it) |
| Bootstrap.RenderAsWritten | utils/ssh.py:82-135 | the text `ssh_exec` sends with `sudo_cmd` as written (definition; `Bootstrap.PlanDeliveredAsWritten` and `Bootstrap.DollarOneGarbled` state it) |
| Bootstrap.ExecOutcome | utils/ssh.py:36-58 | output exactly when the session connects and exits 0, and the output is stdout stripped of surrounding whitespace |
| Bootstrap.ExecRun | utils/ssh.py:36-58 | every command is logged and uses one session; a connection error happens exactly when that session's link is down |
| Bootstrap.Remote.Exec | utils/ssh.py:36-58 | running a command changes the remote state as `ExecRun` says, and the connection is closed afterwards |
| Bootstrap.SshLoop | utils/ssh.py:69-79 | the retry loop of `wait_ssh_up` never reports a port timeout (the port wait comes before it) |
| Bootstrap.WaitSshUpRun | utils/ssh.py:61-79 | `wait_ssh_up`: the port wait, then the retry loop (definition; `Bootstrap.SshLoopFacts` states it) |
| Bootstrap.SshLoopFacts | utils/ssh.py:69-79 | the readiness loop only sends `true`, changes no account, reports SSH up exactly when a link within the attempt budget is up, and otherwise keeps the last error |
| Bootstrap.SshLoopLog | utils/ssh.py:69-79 | the readiness loop changes no account and appends at most one `true` probe per attempt to the log |
| Bootstrap.SshLoopUp | utils/ssh.py:69-79 | the loop reports SSH up exactly when some session within the attempt budget gets through |
| Bootstrap.SshLoopLast | utils/ssh.py:69-79 | on timeout, the error kept is the last attempt's connection error, or the one passed in when no attempt is made |
| Bootstrap.ExecRunGuest | utils/ssh.py:36-58 | a command succeeds exactly when its session gets through and it exits 0, and only then changes the guest |
| Bootstrap.Remote.WaitSshUp | utils/ssh.py:61-79 | the loop leaves exactly the state and answer of `WaitSshUpRun` |
| Bootstrap.Plan | utils/ssh.py:106-136 | the commands after the readiness wait, in order: the sudo check, the account, the password, the `sudo` group only when `make_sudo`, the final check (definition; `Bootstrap.CreateUserOrder` states it) |
| Bootstrap.RunSteps | utils/ssh.py:107-136 | a command sequence ends either with every step done or with a failing step |
| Bootstrap.RunStepsFailFast | utils/ssh.py:107-136 | the steps are sent in order and stop at the first failure; that failing step is the last one sent |
| Bootstrap.RunStepsApply | utils/ssh.py:107-136 | on success, the guest is the commands' effects applied in order; with every link up, success is exactly every command exiting 0 |
| Bootstrap.PlanEffect | utils/ssh.py:106-136 | the plan succeeds exactly when the bootstrap user has password-less sudo and the account exists or can be created; the resulting guest is `Provisioned` |
| Bootstrap.ExistingUserSkipped | utils/ssh.py:111-115 | creating an account that already exists is a successful no-op |
| Bootstrap.CreateUserRun | utils/ssh.py:91-136 | `create_user_over_ssh`: the name check, `wait_ssh_up`, then the plan run step by step (definition; `Bootstrap.CreateUserOrder` and `Bootstrap.CreatedMeansProvisioned` state it) |
| Bootstrap.NameCheckedFirst | utils/ssh.py:99-101 | a name is refused with `InvalidUser` exactly when it is not alphanumeric, and then nothing is sent and nothing changes |
| Bootstrap.CreateUserLog | utils/ssh.py:103-136 | the log is the readiness probes followed by a prefix of the plan, cut exactly at the failing step |
| Bootstrap.CreateUserOrder | utils/ssh.py:91-136 | a name is refused with `InvalidUser` exactly when it is not alphanumeric, and then nothing is sent; otherwise the log is the readiness probes followed by a prefix of the plan, cut exactly at the failing step |
| Bootstrap.CreatedMeansProvisioned | utils/ssh.py:91-136 | success implies a valid name and password-less sudo, and the account exists with the given password |
| Bootstrap.CreatedIffReliable | utils/ssh.py:91-136 | over a reliable network, success is exactly password-less sudo and an account that exists or can be created |
| Bootstrap.ProvisionedIdempotent | utils/ssh.py:111-130 | applying the plan's effects twice is applying them once |
| Bootstrap.CreateUserIdempotent | utils/ssh.py:91-136 | running the same bootstrap again succeeds and leaves the guest unchanged |
| Bootstrap.Remote.CreateUser | utils/ssh.py:91-136 | the method leaves exactly the state and outcome of `CreateUserRun` |
| Bootstrap.Remote.RunPlan | utils/ssh.py:106-136 | the commands after the readiness wait, each sent only if the previous succeeded, leave exactly the state and outcome of `RunSteps` over the plan |
| Bootstrap.Remote.Step | utils/ssh.py:36-58 | one command either succeeds and the rest of the plan continues from the new state, or fails and ends the plan with that step's error |
| Bootstrap.RenderDelivers | utils/ssh.py:109-135 | with the corrected `sudo_cmd`, every wrapped command hands `bash -lc` exactly its script, and `chpasswd` receives exactly `user:pass` |
| Bootstrap.EmptyPasswordAsWritten | utils/ssh.py:119-123 | as written, for password `$1` the guest runs `echo 'u:' \| chpasswd` |
| Bootstrap.ExecRunAsWritten | utils/ssh.py:36-88 | one `ssh_exec` with `sudo_cmd` as written: the same as `ExecRun` whenever `bash -lc` receives the intended script, and otherwise the guest's reaction to the changed script is a parameter |
| Bootstrap.CreateUserRunAsWritten | utils/ssh.py:91-136 | `create_user_over_ssh` with `sudo_cmd` as written (definition; `Bootstrap.CreateUserAsWrittenAgrees` states it) |
| Bootstrap.RunStepsAsWritten | utils/ssh.py:106-136 | the fail-fast run of the plan with `sudo_cmd` as written (definition; `Bootstrap.RunStepsAsWrittenAgrees` states it) |
| Bootstrap.SetPasswordDelivered | utils/ssh.py:117-123 | as written, the `chpasswd` script reaches `bash -lc` unchanged for an alphanumeric name and a plain password |
| Bootstrap.PlanDeliveredAsWritten | utils/ssh.py:106-136 | as written, every command of the plan reaches `bash -lc` unchanged for an alphanumeric name and a plain password |
| Bootstrap.RunStepsAsWrittenAgrees | utils/ssh.py:106-136 | commands that all arrive unchanged run as written exactly as with the corrected `sudo_cmd` |
| Bootstrap.CreateUserAsWrittenAgrees | utils/ssh.py:91-136 | for a plain password, the code as written ends with the same outcome, guest and log as with the corrected `sudo_cmd`, whatever a changed script would do |
| Bootstrap.CreatedMeansProvisionedAsWritten | utils/ssh.py:91-136 | as written and for a plain password, success implies a valid name and password-less sudo, and the account exists with the given password |
| Bootstrap.CreatedIffReliableAsWritten | utils/ssh.py:91-136 | as written and for a plain password, over a reliable network success is exactly password-less sudo and an account that exists or can be created |
| Bootstrap.DollarOneGarbled | utils/ssh.py:117-123 | as written, the `chpasswd` script for the password `$1` does not reach `bash -lc` unchanged |
| Provisioning.Hostname | blueprints/admin.py:132 | the hostname `vm-<user>-<id>`, with the id in decimal (definition; `Provisioning.ReadyMeansCredentials` states what the row holds) |
| Provisioning.Provision | blueprints/admin.py:127-157 | nothing is called exactly when there is no client, no node, or a template id that `int` cannot read; otherwise the first call is nextid; a container comes out only with the new id and the hostname `vm-<user>-<id>`, after both tasks completed and the configuration went through, with a valid normalised address |
| Provisioning.CloneAndStart | blueprints/admin.py:134-157 | a container comes out only with the id and hostname it was cloned with, after both tasks completed |
| Provisioning.ConfigureAndStart | blueprints/admin.py:143-157 | nothing is called when `int` cannot read the cores or the memory; a container comes out only after the configuration went through and the start task completed, with a valid normalised address |
| Provisioning.ProvisionVm | blueprints/admin.py:127-157 | the statements make exactly the calls, and give exactly the result, of `Provision` |
| Provisioning.CloneAndStartVm | blueprints/admin.py:134-141 | the statements make exactly the calls, and give exactly the result, of `CloneAndStart` |
| Provisioning.ConfigureAndStartVm | blueprints/admin.py:143-157 | the statements make exactly the calls, and give exactly the result, of `ConfigureAndStart` |
| Provisioning.StartsOnlyIfConfigured | blueprints/admin.py:143-150 | the start call is made only when the configuration call succeeded |
| Provisioning.ConfiguresOnlyIfCloned | blueprints/admin.py:134-150 | configuration and start calls are made only after the clone task completed |
| Provisioning.StartsAfterClone | blueprints/admin.py:127-150 | the container is configured only after the clone completed, and started only after that and the configuration |
| Provisioning.UnreadableTierFails | blueprints/admin.py:130-147 | a template id, core count or memory size that `int` cannot read makes provisioning fail before the configuration call: no container, no configuration, no start |
| Provisioning.Record | blueprints/admin.py:152-182 | see "Record" below the table |
| Provisioning.AcceptRun | blueprints/admin.py:110-182 | `accetta` as one function: the guards, provisioning, and the commits (definition; `Provisioning.AcceptGuard`, `Provisioning.StatusMachine` and `Provisioning.ReadyMeansCredentials` state it) |
| Provisioning.Store.Accept | blueprints/admin.py:110-182 | the request's status, credentials row, commit history and hypervisor calls become those of `AcceptRun`, and a missing request changes nothing |
| Provisioning.Store.Save | blueprints/admin.py:152-182 | the status, credentials row and commits become those of `Record` |
| Provisioning.RejectedStatus | blueprints/admin.py:98-104 | rejection gives REJECTED exactly from PENDING (or REJECTED), and leaves every other status alone |
| Provisioning.Store.Reject | blueprints/admin.py:93-107 | only a PENDING request becomes REJECTED, with one commit; credentials never change; a missing request is reported |
| Provisioning.AcceptGuard | blueprints/admin.py:117-125 | a request that is not PENDING, or has no VM type, leads to no call and no commit, and those are the only such cases |
| Provisioning.StatusMachine | blueprints/admin.py:93-182 | a status leaves PENDING only, accepting never yields REJECTED, and every commit of an accept writes READY or FAILED for that request |
| Provisioning.ReadyMeansCredentials | blueprints/admin.py:152-172 | READY exactly when provisioning succeeded and both default credentials are configured; the row then holds a valid normalised address, those credentials and `vm-<user>-<id>`, and READY is committed once before the row and once with it |
| Provisioning.AcceptOnce | blueprints/admin.py:117-119 | after one accept, a second accept of the same request calls nothing and changes nothing |
| Provisioning.RejectIsFinal | blueprints/admin.py:93-119 | a rejected request can be neither accepted nor rejected again |

`Provisioning.Record` states five things:
- it ends READY or FAILED;
- READY means provisioning succeeded and both config keys are present;
- READY rows hold the container's address, the configured credentials and
  its hostname;
- there are one or two commits, both for this request, and the last writes
  the final state;
- a new row exists afterwards exactly when READY, and an existing row that
  fails keeps its password and hostname but takes the new address.

## Left out

- The Flask routes, templates, flash messages, login and role checks, and the
  ORM itself are not modelled. The database is the two maps of `Store`, plus
  the list of what each commit wrote.
- `Provisioning.Store.Accept`: the crash when the request does not exist is
  only reported as `NoRequest`, with nothing changed. The HTTP error it turns
  into is not modelled.
- Behaviour of the code that the model keeps as it is:
  - `accetta` does not resize the disk and does not call the SSH bootstrap.
  - The credentials come from the `VM_DEFAULT_USERNAME` and
    `VM_DEFAULT_PASSWORD` settings, not from a generated password.
  - READY is committed before the credentials row is written, so readers can
    see READY without a row.
  - When a settings key is missing after that, FAILED is committed on top of
    READY. A pre-existing row then keeps the fields already assigned.
  - An exception from a status or interfaces poll ends the wait at once. It is
    not retried until the deadline.
- Wall-clock time, `time.sleep` and the poll intervals are not modelled. A
  deadline is the replies that arrive before it. The SSH readiness wait has an
  attempt budget.
- `secrets.choice` is a function parameter. The model does not capture the
  uniformity of the draw.
- `Bootstrap.ExecRun`: the stdout of a command is modelled as empty. None of
  the callers in `create_user_over_ssh` reads it. `ExecOutcome` states the
  stripping.
- `Bootstrap.Remote`: the paramiko client, host keys, the per-call timeouts
  and closing the connection are not modelled. The class only records that no
  connection stays open.
- `create_user_over_ssh`'s `lock_bootstrap` argument is not modelled because
  the code never uses it.
- `Text.IsAlnum`: `str.isalnum` is modelled for ASCII letters and digits only.
  Other Unicode letters are not modelled.
- `Shell.PyRepr`: printability is decided for ASCII and Latin-1 only
  (controls, U+007F to U+00A0 and U+00AD are escaped). Other non-printable
  Unicode characters are copied unescaped.
- `Shell.Read`: within double quotes, only `$1`–`$9` (empty in
  `bash -lc`'s parent shell) are expanded. Any other `$` or a backtick makes
  the read undefined (`None`) rather than modelling variable or command
  substitution.
- `Bootstrap.PlanEffect`, `Bootstrap.Effect` and the lemmas built on them
  state what the guest does once `bash -lc` receives the intended script,
  which is what the corrected `sudo_cmd` delivers.
- `Bootstrap.CreatedMeansProvisioned` holds for the corrected `sudo_cmd`. For
  `sudo_cmd` as written, `Bootstrap.CreatedMeansProvisionedAsWritten` proves
  it for plain passwords: printable ASCII without `'`, `"`, `\`, `$` or a
  backtick.
- `Bootstrap.CreatedIffReliable` holds for the corrected `sudo_cmd`. For
  `sudo_cmd` as written, `Bootstrap.CreatedIffReliableAsWritten` proves it
  for plain passwords.
- `Bootstrap.Remote.CreateUser` runs the corrected `sudo_cmd`;
  `Bootstrap.CreateUserAsWrittenAgrees` shows the code as written ends the
  same way for a plain password.
- `Bootstrap.ExecRunAsWritten`: for any other password, for example `$1`
  (`Bootstrap.DollarOneGarbled`, `Bootstrap.EmptyPasswordAsWritten`) or
  `a'b` (whose `repr` leaves a quote open), what the guest does with the
  changed script is a parameter, not modelled.
- `Ipv4.Parse` follows `ipaddress` from Python 3.9.5 on, which refuses
  leading zeros in an octet. Older versions accept `010.0.0.1`; that
  behaviour is not modelled.
- A newline inside a password, which `chpasswd` would split into two lines,
  is not modelled.
- `Provisioning.VmTier`: each `int(...)` of a tier field is either a number or
  a failure. Which texts `int` accepts (signs, spaces, underscores) is not
  modelled.
- `proxmox_client` and `utils/proxmox.py` are not modelled. Whether a client
  can be built is a flag of the hypervisor script.

## Findings

| source | as written | input that shows it | evidently intended | confidence | as-written member | corrected member |
|---|---|---|---|---|---|---|
| utils/ssh.py:88 | `sudo_cmd` wraps the script with Python's `repr`. When the script holds a `'` and no `"` (every script built with `shlex.quote` around unsafe text), `repr` picks double quotes. The remote login shell then expands `$…` inside them before `bash -lc` sees the script. | `create_user_over_ssh(..., new_user="alice", new_pass="$1")`, or a `gen_password` result in which `$` is followed by a letter, a digit or one of `!@#$_-`: the guest runs `echo 'alice:' \| chpasswd`, so the account gets a different password from the one requested | `bash -lc` receives the script verbatim, as shell quoting of the script (`shlex.quote`) gives | not executed | Bootstrap.EmptyPasswordAsWritten | Shell.SudoCmd |

`Shell.SudoCmdDelivers` proves the corrected command, for every script.
`Bootstrap.RenderDelivers` proves it for every command the bootstrap sends.
`Bootstrap.Render` uses the corrected command, and `Bootstrap.RenderAsWritten`
keeps the command as written.
`Bootstrap.CreateUserRunAsWritten` runs the bootstrap with the command as
written, and `Bootstrap.CreateUserAsWrittenAgrees` shows where it agrees with
the corrected one.
