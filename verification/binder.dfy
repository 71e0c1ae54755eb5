/**
 * The startup decision that acquires the listening endpoint: probe the
 * endpoint as a client first; on a successful probe create the server and
 * listen anyway (another live server owns the endpoint, so the bind is left
 * to fail); on a probe error listen directly for an object endpoint, and
 * for any other endpoint remove the file at the path first, whatever the
 * removal reports.
 */
module Binder {
  import opened Wrappers

  /** The bind target: a socket file path, or an address object (host and
      port), the one kind whose `typeof` is 'object'. */
  datatype Endpoint =
    | Path(name: string)
    | Address(host: string, port: nat)
  {
    /** Whether the endpoint is an object value. */
    predicate IsObject() { Address? }

    /** JavaScript truthiness: the empty path is falsy, an object never is. */
    predicate Truthy() {
      match this
      case Path(n) => n != []
      case Address(_, _) => true
    }
  }

  const DefaultPath: Endpoint := Path("/tmp/winston.sock")

  /** `options.path || '/tmp/winston.sock'`: the endpoint in use is never
      falsy; a truthy configured endpoint is kept, and an absent or falsy one
      is replaced by the default path. */
  function ResolveEndpoint(configured: Option<Endpoint>): (e: Endpoint)
    ensures e.Truthy()
    ensures configured.Some? && configured.value.Truthy() ==> e == configured.value
    ensures !(configured.Some? && configured.value.Truthy()) ==> e == Path("/tmp/winston.sock")
  {
    if configured.Some? && configured.value.Truthy() then configured.value else DefaultPath
  }

  /** How the client probe of the endpoint ended. */
  datatype Probe = Connected | ProbeError

  /** The calls the binder makes on the network and file system. */
  datatype Action =
    | Connect(target: Endpoint)
    | Unlink(target: Endpoint)
    | CreateServer
    | Listen(target: Endpoint)

  /** Create the server (accepted sockets go to the registry) and listen. */
  function MakeServer(e: Endpoint): (acts: seq<Action>)
  {
    [CreateServer, Listen(e)]
  }

  /** The calls made once the probe has ended. The unlink callback does not
      consult its error argument, so the plan does not depend on it. */
  function AfterProbe(e: Endpoint, probe: Probe): (acts: seq<Action>)
  {
    match probe
    case Connected => MakeServer(e)
    case ProbeError =>
      if e.IsObject() then MakeServer(e) else [Unlink(e)] + MakeServer(e)
  }

  /** The whole startup sequence: probe, then react. It always starts with
      the probe and ends by listening on the endpoint, and it removes a file
      exactly when the probe failed and the endpoint is not an object. */
  function Startup(e: Endpoint, probe: Probe): (acts: seq<Action>)
    ensures 3 <= |acts| && acts[0] == Connect(e) && acts[|acts| - 1] == Listen(e)
    ensures (exists i :: 0 <= i < |acts| && acts[i].Unlink?) <==> (probe == ProbeError && !e.IsObject())
  {
    var acts := [Connect(e)] + AfterProbe(e, probe);
    assert probe == ProbeError && !e.IsObject() ==> acts[1].Unlink?;
    acts
  }

  /** Every startup probes first and ends by creating a server and listening
      on the endpoint; every call targets that endpoint; there is exactly one
      listen. */
  lemma StartupShape(e: Endpoint, probe: Probe)
    ensures var acts := Startup(e, probe);
            && 3 <= |acts| <= 4
            && acts[0] == Connect(e)
            && acts[|acts| - 2] == CreateServer
            && acts[|acts| - 1] == Listen(e)
            && (forall i :: 0 <= i < |acts| && !acts[i].CreateServer? ==> acts[i].target == e)
            && (forall i :: 0 <= i < |acts| - 1 ==> !acts[i].Listen?)
  {
  }

  /** A successful probe goes straight to creating the server and listening. */
  lemma ConnectedListens(e: Endpoint)
    ensures Startup(e, Connected) == [Connect(e), CreateServer, Listen(e)]
  {
  }

  /** A failed probe of an address object listens without touching the file system. */
  lemma ObjectEndpointListens(host: string, port: nat)
    ensures var e := Address(host, port);
            Startup(e, ProbeError) == [Connect(e), CreateServer, Listen(e)]
  {
  }

  /** A failed probe of a socket path removes the file, then listens. */
  lemma StalePathUnlinkedThenListens(name: string)
    ensures var e := Path(name);
            Startup(e, ProbeError) == [Connect(e), Unlink(e), CreateServer, Listen(e)]
  {
  }
}
