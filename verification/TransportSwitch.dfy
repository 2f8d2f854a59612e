/**
 Transport switches of the agent: the state file and its patches (internal/agent/state), the
 switch handler (cmd/agent/runtime.go, UpdateTransport), probation
 (internal/agent/probation/probation.go) and the reload flag (internal/agent/conn/connection.go).
 */
module TransportSwitch {
  import opened Wrappers
  import opened GoNumbers

  datatype Snapshot = Snapshot(mode: string, listenAddr: string, endpoint: string, serverName: string)

  /** The persisted credentials. `identity` stands for the fields that no transport code touches. */
  datatype Bundle = Bundle(
    mode: string,
    listenAddr: string,
    endpoint: string,
    serverName: string,
    prev: Option<Snapshot>,
    switchedAt: int, // Unix seconds
    panelURL: string,
    identity: seq<string>)

  function SnapshotOf(b: Bundle): Snapshot {
    Snapshot(b.mode, b.listenAddr, b.endpoint, b.serverName)
  }

  // ---------------------------------------------------------------- the three patches

  // UpdateTransport on the fresh disk state.
  function Switched(b: Bundle, mode: string, listenAddr: string, panelURL: string, now: int): Bundle {
    var probed := if b.mode != mode then b.(prev := Some(SnapshotOf(b)), switchedAt := now) else b;
    probed.(mode := mode, listenAddr := listenAddr, panelURL := if panelURL != "" then panelURL else b.panelURL)
  }

  const NANOS: int := 1_000_000_000
  const DEFAULT_WINDOW: int := 600 * NANOS

  type Duration = Int64

  function Window(window: Duration): (w: Duration)
    ensures w > 0
  {
    if window <= 0 then DEFAULT_WINDOW else window
  }

  // The probation of b has run out at `now` (nanoseconds).
  predicate Due(b: Bundle, window: Duration, now: int) {
    b.prev.Some? && b.switchedAt != 0 && now - b.switchedAt * NANOS >= Window(window)
  }

  function Reverted(b: Bundle): Bundle {
    match b.prev
    case None => b
    case Some(p) =>
      b.(mode := p.mode, listenAddr := p.listenAddr,
         endpoint := if p.endpoint != "" then p.endpoint else b.endpoint,
         serverName := if p.serverName != "" then p.serverName else b.serverName,
         prev := None, switchedAt := 0)
  }

  function Confirmed(b: Bundle): Bundle {
    b.(prev := None, switchedAt := 0)
  }

  // A switch names mode and address; the panel's URL only when one is given. It leaves the dial target and
  // the identity alone, and touches the snapshot exactly when it changes the mode.
  lemma SwitchedFields(b: Bundle, mode: string, listenAddr: string, panelURL: string, now: int)
    ensures var s := Switched(b, mode, listenAddr, panelURL, now);
            && s.mode == mode && s.listenAddr == listenAddr
            && (panelURL != "" ==> s.panelURL == panelURL) && (panelURL == "" ==> s.panelURL == b.panelURL)
            && s.endpoint == b.endpoint && s.serverName == b.serverName && s.identity == b.identity
            && (b.mode == mode ==> s.prev == b.prev && s.switchedAt == b.switchedAt)
            && (b.mode != mode ==> s.prev == Some(Snapshot(b.mode, b.listenAddr, b.endpoint, b.serverName)) && s.switchedAt == now)
  {
  }

  // A probation without a window of its own runs for ten minutes.
  lemma DueAfterTenMinutes(b: Bundle, now: int)
    requires b.prev.Some? && b.switchedAt != 0
    ensures Due(b, 0, now) <==> now - b.switchedAt * 1_000_000_000 >= 600 * 1_000_000_000
  {
  }

  // A confirmation ends the probation and changes nothing else.
  lemma ConfirmedFields(b: Bundle)
    ensures var c := Confirmed(b);
            && c.mode == b.mode && c.listenAddr == b.listenAddr && c.endpoint == b.endpoint && c.serverName == b.serverName
            && c.panelURL == b.panelURL && c.identity == b.identity
            && c.prev == None && c.switchedAt == 0
  {
  }

  // The six transport fields of `from`, everything else of `onto`.
  function PatchTransport(onto: Bundle, from: Bundle): Bundle {
    onto.(mode := from.mode, listenAddr := from.listenAddr, endpoint := from.endpoint,
          serverName := from.serverName, prev := from.prev, switchedAt := from.switchedAt)
  }

  predicate SameTransport(a: Bundle, b: Bundle) {
    PatchTransport(a, b) == a
  }

  // ---------------------------------------------------------------- the objects

  /** The state file; Update is atomic under the package lock, and may fail. */
  class StateFile {
    var bundle: Bundle

    constructor (bundle: Bundle)
      ensures this.bundle == bundle
    {
      this.bundle := bundle;
    }

    method Update(mutate: Bundle -> Bundle, ok: bool)
      modifies this
      ensures bundle == if ok then mutate(old(bundle)) else old(bundle)
    {
      if ok {
        bundle := mutate(bundle);
      }
    }

    method Load(ok: bool) returns (r: Option<Bundle>)
      ensures r == if ok then Some(bundle) else None
    {
      r := if ok then Some(bundle) else None;
    }
  }

  /** The credentials the reconnect loop holds in memory. */
  class Credentials {
    var transportMode: string
    var listenAddr: string
    var grpcEndpoint: string
    var grpcServerName: string
    var prevTransport: Option<Snapshot>
    var transportSwitchedAtUnix: int
    var panelURL: string
    var identity: seq<string>

    function View(): Bundle
      reads this
    {
      Bundle(transportMode, listenAddr, grpcEndpoint, grpcServerName, prevTransport, transportSwitchedAtUnix,
             panelURL, identity)
    }

    constructor (b: Bundle)
      ensures View() == b
    {
      transportMode, listenAddr, grpcEndpoint, grpcServerName := b.mode, b.listenAddr, b.endpoint, b.serverName;
      prevTransport, transportSwitchedAtUnix := b.prev, b.switchedAt;
      panelURL, identity := b.panelURL, b.identity;
    }
  }

  method MaybeRevert(file: StateFile, creds: Credentials, window: Duration, now: int, diskOk: bool) returns (reverted: bool)
    modifies file, creds
    ensures reverted <==> Due(old(creds.View()), window, now)
    ensures creds.View() == if reverted then Reverted(old(creds.View())) else old(creds.View())
    ensures file.bundle == if reverted && diskOk then PatchTransport(old(file.bundle), creds.View()) else old(file.bundle)
  {
    if creds.prevTransport.None? || creds.transportSwitchedAtUnix == 0 {
      return false;
    }
    var effective := if window <= 0 then DEFAULT_WINDOW else window;
    if Saturate(now - creds.transportSwitchedAtUnix * NANOS) < effective {
      return false;
    }
    var prev := creds.prevTransport.value;
    creds.transportMode := prev.mode;
    creds.listenAddr := prev.listenAddr;
    if prev.endpoint != "" {
      creds.grpcEndpoint := prev.endpoint;
    }
    if prev.serverName != "" {
      creds.grpcServerName := prev.serverName;
    }
    creds.prevTransport := None;
    creds.transportSwitchedAtUnix := 0;
    var m := creds.View();
    file.Update((c: Bundle) => c.(mode := m.mode, listenAddr := m.listenAddr, endpoint := m.endpoint, serverName := m.serverName,
                        prev := None, switchedAt := 0), diskOk);
    reverted := true;
  }

  method Clear(file: StateFile, creds: Credentials, diskOk: bool)
    modifies file, creds
    ensures creds.View() == Confirmed(old(creds.View()))
    ensures creds.transportMode == old(creds.transportMode) && creds.listenAddr == old(creds.listenAddr)
    ensures creds.grpcEndpoint == old(creds.grpcEndpoint) && creds.grpcServerName == old(creds.grpcServerName)
    ensures creds.panelURL == old(creds.panelURL) && creds.identity == old(creds.identity)
    ensures var active := old(creds.View()) != Confirmed(old(creds.View()));
            file.bundle == if active && diskOk then Confirmed(old(file.bundle)) else old(file.bundle)
  {
    if creds.prevTransport.None? && creds.transportSwitchedAtUnix == 0 {
      return;
    }
    creds.prevTransport := None;
    creds.transportSwitchedAtUnix := 0;
    file.Update((c: Bundle) => c.(prev := None, switchedAt := 0), diskOk);
  }

  /** The reload flag and the cancel function of the live connection, both under one mutex. */
  class TransportReload {
    var pending: bool
    var cancel: nat // identifies the registered cancel function; 0 is the initial no-op

    constructor ()
      ensures !pending && cancel == 0
    {
      pending, cancel := false, 0;
    }

    method SetPending() returns (toCancel: nat)
      modifies this`pending
      ensures pending && toCancel == cancel
    {
      pending := true;
      toCancel := cancel;
    }

    method TakePending() returns (taken: bool)
      modifies this`pending
      ensures taken == old(pending) && !pending
    {
      if !pending {
        return false;
      }
      pending := false;
      taken := true;
    }
  }

  // The handler of a switch job: disk first, then the flag.
  method UpdateTransport(file: StateFile, reload: TransportReload, mode: string, listenAddr: string, panelURL: string,
                         now: int, diskOk: bool) returns (r: Option<nat>)
    modifies file, reload`pending
    ensures r.Some? <==> diskOk
    ensures file.bundle == if diskOk then Switched(old(file.bundle), mode, listenAddr, panelURL, now) else old(file.bundle)
    ensures reload.pending == (diskOk || old(reload.pending))
    ensures r.Some? ==> r.value == reload.cancel
  {
    file.Update(current => Switched(current, mode, listenAddr, panelURL, now), diskOk);
    if !diskOk {
      return None;
    }
    var toCancel := reload.SetPending();
    r := Some(toCancel);
  }

  // ---------------------------------------------------------------- the top of a reconnect iteration

  // What the loop holds after the reload of a pending switch, and then the probation check.
  function Loaded(mem: Bundle, disk: Bundle, pending: bool, loadOk: bool): Bundle {
    if pending && loadOk then disk else mem
  }

  function Refreshed(mem: Bundle, disk: Bundle, pending: bool, loadOk: bool, window: Duration, now: int): Bundle {
    var loaded := Loaded(mem, disk, pending, loadOk);
    if Due(loaded, window, now) then Reverted(loaded) else loaded
  }

  /** The part of the reconnect loop that lives as long as the process. */
  class Loop {
    const file: StateFile
    const reload: TransportReload
    var credentials: Credentials
    var gatewayAddr: string
    var serverName: string

    constructor (file: StateFile, reload: TransportReload, credentials: Credentials, gatewayAddr: string, serverName: string)
      ensures this.file == file && this.reload == reload && this.credentials == credentials
      ensures this.gatewayAddr == gatewayAddr && this.serverName == serverName
    {
      this.file, this.reload, this.credentials := file, reload, credentials;
      this.gatewayAddr, this.serverName := gatewayAddr, serverName;
    }

    method AdoptDialTarget(b: Bundle)
      modifies this`gatewayAddr, this`serverName
      ensures gatewayAddr == if b.endpoint != "" then b.endpoint else old(gatewayAddr)
      ensures serverName == if b.serverName != "" then b.serverName else old(serverName)
    {
      if b.endpoint != "" {
        gatewayAddr := b.endpoint;
      }
      if b.serverName != "" {
        serverName := b.serverName;
      }
    }

    method RefreshAtTop(window: Duration, now: int, loadOk: bool, diskOk: bool)
      modifies this, file, reload`pending, credentials
      ensures !reload.pending
      ensures credentials.View()
           == Refreshed(old(credentials.View()), old(file.bundle), old(reload.pending), loadOk, window, now)
      // The disk is patched exactly when what is then in memory had run out of probation.
      ensures var due := Due(Loaded(old(credentials.View()), old(file.bundle), old(reload.pending), loadOk), window, now);
              file.bundle == if due && diskOk then PatchTransport(old(file.bundle), credentials.View()) else old(file.bundle)
      // The dial target follows the credentials exactly when these were reloaded or reverted.
      ensures var moved := (old(reload.pending) && loadOk)
                        || Due(Loaded(old(credentials.View()), old(file.bundle), old(reload.pending), loadOk), window, now);
              && gatewayAddr == (if moved && credentials.View().endpoint != "" then credentials.View().endpoint else old(gatewayAddr))
              && serverName == (if moved && credentials.View().serverName != "" then credentials.View().serverName else old(serverName))
    {
      var taken := reload.TakePending();
      if taken {
        var reloaded := file.Load(loadOk);
        if reloaded.Some? {
          credentials := new Credentials(reloaded.value);
          AdoptDialTarget(reloaded.value);
        }
      }
      var reverted := MaybeRevert(file, credentials, window, now, diskOk);
      if reverted {
        AdoptDialTarget(credentials.View());
      }
    }
  }

  // From the handler to the loop: a switch of mode whose write and load succeed is what the loop holds
  // and what the disk keeps, whatever probation the loop's old copy was on, until its own window is over.
  method SwitchReachesLoop(loop: Loop, mode: string, listenAddr: string, panelURL: string, at: int, window: Duration, now: int)
    requires now < at * NANOS + Window(window)
    requires loop.file.bundle.mode != mode
    modifies loop, loop.file, loop.reload, loop.credentials
    ensures loop.credentials.View() == loop.file.bundle == Switched(old(loop.file.bundle), mode, listenAddr, panelURL, at)
    ensures loop.credentials.View().mode == mode && loop.credentials.View().listenAddr == listenAddr
    ensures loop.credentials.View().prev == Some(SnapshotOf(old(loop.file.bundle)))
    ensures loop.credentials.View().panelURL == (if panelURL != "" then panelURL else old(loop.file.bundle.panelURL))
    ensures loop.credentials.View().identity == old(loop.file.bundle.identity)
    ensures !loop.reload.pending
  {
    var cancel := UpdateTransport(loop.file, loop.reload, mode, listenAddr, panelURL, at, true);
    loop.RefreshAtTop(window, now, true, true);
  }
}
