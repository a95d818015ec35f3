/** The control request every client helper builds, the network it is sent over,
    and the sequencing of several requests inside one `try` block.

    The network is an oracle: a function from the request payload to the HTTP status
    and the `code`/`message` of the JSON answer. A `Trace` records the payloads a
    call sent, in order, and whether it finished or threw. */
module Control {
  import opened Results
  import opened Types

  const OnOffType: string := "devices.capabilities.on_off"
  const PowerInstance: string := "powerSwitch"
  const RangeType: string := "devices.capabilities.range"
  const BrightnessInstance: string := "brightness"
  const ColorSettingType: string := "devices.capabilities.color_setting"
  const ColorRgbInstance: string := "colorRgb"
  const ColorTemperatureInstance: string := "colorTemperatureK"

  /** The `capability` object of a control request. */
  datatype Command = Command(capType: string, instance: string, value: int)

  /** The `payload` object of a control request (the random `requestId` is not modelled). */
  datatype Payload = Payload(sku: string, device: string, capability: Command)

  /** What the control endpoint answers: the HTTP status and the body's `code` and `message`. */
  datatype Reply = Reply(status: int, code: int, message: string)

  type Network = Payload -> Reply

  /** `response.ok`. */
  predicate HttpOk(status: int)
  {
    200 <= status <= 299
  }

  datatype Trace = Trace(sent: seq<Payload>, outcome: Outcome)

  /** The network answers a payload with an ok status and code 200. */
  predicate Accepted(net: Network, p: Payload)
  {
    HttpOk(net(p).status) && net(p).code == 200
  }

  /** A call that throws before sending anything. */
  function Refuse(e: Error): Trace
  {
    Trace([], Fail(e))
  }

  /** `controlDevice(device, sku, command)`: one request with the payload as given; a non-ok
      HTTP status throws, and so does an answer whose embedded `code` is not 200. */
  function ControlDevice(net: Network, device: string, sku: string, cmd: Command): (t: Trace)
    ensures t.sent == [Payload(sku, device, cmd)]
    ensures t.outcome.Pass? <==> HttpOk(net(Payload(sku, device, cmd)).status) && net(Payload(sku, device, cmd)).code == 200
    ensures !HttpOk(net(Payload(sku, device, cmd)).status) ==> t.outcome == Fail(HttpError(net(Payload(sku, device, cmd)).status))
  {
    var p := Payload(sku, device, cmd);
    var reply := net(p);
    if !HttpOk(reply.status) then Trace([p], Fail(HttpError(reply.status)))
    else if reply.code != 200 then Trace([p], Fail(CommandFailed(reply.code, reply.message)))
    else Trace([p], Pass)
  }

  /** A network on which every request succeeds. */
  function Accepting(): Network
  {
    (p: Payload) => Reply(200, 200, "success")
  }

  /** `await first; await next;` — `next` runs only when `first` did not throw. */
  function Then(first: Trace, next: Trace): Trace
  {
    if first.outcome.Fail? then first else Trace(first.sent + next.sent, next.outcome)
  }

  /** Every payload the steps would send if all ran. */
  function AllSent(steps: seq<Trace>): seq<Payload>
  {
    if |steps| == 0 then [] else steps[0].sent + AllSent(steps[1..])
  }

  predicate AllPass(steps: seq<Trace>)
  {
    forall i :: 0 <= i < |steps| ==> steps[i].outcome.Pass?
  }

  /** The steps of a loop body run one after another in one `try` block. */
  function Chain(steps: seq<Trace>): (t: Trace)
    ensures t.outcome.Pass? <==> AllPass(steps)
    ensures t.outcome.Pass? ==> t.sent == AllSent(steps)
    ensures t.outcome.Fail? ==> exists i :: 0 <= i < |steps| && t.outcome == steps[i].outcome
  {
    if |steps| == 0 then Trace([], Pass) else Then(steps[0], Chain(steps[1..]))
  }

  /** The first failing step ends the chain: its error is rethrown and nothing after it is sent. */
  lemma {:induction false} ChainStopsAtFirstFailure(steps: seq<Trace>, k: nat)
    requires k < |steps| && steps[k].outcome.Fail? && AllPass(steps[..k])
    ensures Chain(steps) == Trace(AllSent(steps[..k + 1]), steps[k].outcome)
  {
    if k == 0 {
      assert AllSent(steps[..1]) == steps[0].sent + AllSent([]);
    } else {
      var rest := steps[1..];
      var before := rest[..k - 1];
      assert AllPass(before) by {
        forall i | 0 <= i < k - 1 ensures before[i].outcome.Pass? {
          assert before[i] == steps[..k][i + 1];
        }
      }
      ChainStopsAtFirstFailure(rest, k - 1);
      assert steps[..k][0] == steps[0];
      assert steps[..k + 1][1..] == rest[..k];
    }
  }

  lemma ThenAssociative(x: Trace, y: Trace, z: Trace)
    ensures Then(x, Then(y, z)) == Then(Then(x, y), z)
  {
  }

  /** Running two chains back to back is one chain over both step lists. */
  lemma {:induction false} ChainAppend(a: seq<Trace>, b: seq<Trace>)
    ensures Chain(a + b) == Then(Chain(a), Chain(b))
  {
    if |a| == 0 {
      assert a + b == b;
    } else {
      var ab := a + b;
      assert ab[0] == a[0] && ab[1..] == a[1..] + b;
      ChainAppend(a[1..], b);
      assert Chain(ab) == Then(a[0], Chain(a[1..] + b));
      ThenAssociative(a[0], Chain(a[1..]), Chain(b));
    }
  }

  lemma {:induction false} AllSentAppend(a: seq<Trace>, b: seq<Trace>)
    ensures AllSent(a + b) == AllSent(a) + AllSent(b)
  {
    if |a| == 0 {
      assert a + b == b;
    } else {
      assert (a + b)[0] == a[0] && (a + b)[1..] == a[1..] + b;
      AllSentAppend(a[1..], b);
    }
  }

  lemma AllPassAppend(a: seq<Trace>, b: seq<Trace>)
    requires AllPass(a) && AllPass(b)
    ensures AllPass(a + b)
  {
    var ab: seq<Trace> := a + b;
    forall i | 0 <= i < |ab| ensures ab[i].outcome.Pass? {
      if i >= |a| { assert ab[i] == b[i - |a|]; }
    }
  }

  /** A chain sends the steps' payloads in order and stops early only by leaving a tail out. */
  lemma {:induction false} ChainSentIsPrefix(steps: seq<Trace>)
    ensures Chain(steps).sent <= AllSent(steps)
  {
    if |steps| > 0 {
      ChainSentIsPrefix(steps[1..]);
      var rest := Chain(steps[1..]).sent;
      var all := AllSent(steps[1..]);
      assert steps[0].sent + rest <= steps[0].sent + all by {
        assert all[..|rest|] == rest;
        assert (steps[0].sent + all)[..|steps[0].sent + rest|] == steps[0].sent + rest;
      }
    }
  }

  // ---------------------------------------------------------------- work-mode settings

  /** One entry of a `workModeSettings` list: a device name, a colour temperature and a brightness. */
  datatype Setting = Setting(device: string, colorTemp: int, brightness: int)

  /** The facts every facade contract gives about one sent request. */
  predicate SendsExactly(net: Network, t: Trace, p: Payload)
  {
    t.sent == [p] && (t.outcome.Pass? <==> Accepted(net, p))
  }

  lemma StepSends(net: Network, t: Trace, p: Payload)
    requires t.sent == [p]
    requires t.sent != [] ==> (t.outcome.Pass? <==> Accepted(net, t.sent[0]))
    ensures SendsExactly(net, t, p)
  {
  }

  lemma ThreeSent(steps: seq<Trace>)
    requires |steps| == 3
    ensures AllSent(steps) == steps[0].sent + steps[1].sent + steps[2].sent
  {
    assert AllSent(steps) == steps[0].sent + AllSent(steps[1..]);
    assert AllSent(steps[1..]) == steps[1].sent + AllSent(steps[2..]) by {
      assert steps[1..][0] == steps[1] && steps[1..][1..] == steps[2..];
    }
    assert AllSent(steps[2..]) == steps[2].sent + AllSent([]) by {
      assert steps[2..][0] == steps[2] && steps[2..][1..] == [];
    }
  }

  // ---------------------------------------------------------------- state requests

  /** The answer of the device-state endpoint: a failed request, or a body whose
      `payload.capabilities` may be missing. */
  datatype StateReply = FetchFailed(status: int) | Fetched(capabilities: Option<seq<StateEntry>>)

  /** `getDeviceState(device, sku)` as an oracle. */
  type StateFetch = (string, string) -> StateReply
}
