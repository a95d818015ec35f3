/** Lookups shared by every registry and state decoder: key lookup in a
    `Record<string, GoveeDevice>`, and `Array.prototype.find` over capability
    descriptors and capability-state entries. */
module Lookups {
  import opened Results
  import opened Types

  /** `Array.prototype.find` as an index: the first position satisfying `p`, or -1. */
  function First<T>(s: seq<T>, p: T -> bool): (i: int)
    ensures -1 <= i < |s|
    ensures i >= 0 ==> p(s[i]) && forall j :: 0 <= j < i ==> !p(s[j])
    ensures i == -1 ==> forall j :: 0 <= j < |s| ==> !p(s[j])
  {
    if |s| == 0 then -1
    else if p(s[0]) then 0
    else
      var k := First(s[1..], p);
      if k == -1 then -1 else k + 1
  }

  /** `Object.keys(registry)`. */
  function Keys(reg: Registry): (ks: seq<string>)
    ensures |ks| == |reg|
    ensures forall i :: 0 <= i < |reg| ==> ks[i] == reg[i].0
  {
    if |reg| == 0 then [] else [reg[0].0] + Keys(reg[1..])
  }

  predicate HasKey(reg: Registry, name: string)
  {
    exists i :: 0 <= i < |reg| && reg[i].0 == name
  }

  /** Object keys are unique. */
  predicate DistinctKeys(reg: Registry)
  {
    forall i, j :: 0 <= i < j < |reg| ==> reg[i].0 != reg[j].0
  }

  /** `registry[name]`: the entry stored under `name`, or undefined. */
  function Lookup(reg: Registry, name: string): (r: Option<Device>)
    ensures r.Some? <==> HasKey(reg, name)
    ensures r.Some? ==> (name, r.value) in reg
    ensures DistinctKeys(reg) ==> forall i :: 0 <= i < |reg| && reg[i].0 == name ==> r == Some(reg[i].1)
  {
    var i := First(reg, (e: (string, Device)) => e.0 == name);
    if i == -1 then None else Some(reg[i].1)
  }

  /** The key listing the not-found messages of the facades carry. */
  function NotFound(reg: Registry, name: string, listKeys: bool): Error
  {
    DeviceNotFound(name, if listKeys then Some(Keys(reg)) else None)
  }

  /** Name resolution of the facades: the registered device, or "Device … not found". */
  function Resolve(reg: Registry, name: string, listKeys: bool): (r: Result<Device>)
    ensures r.Ok? <==> HasKey(reg, name)
    ensures r.Ok? ==> Lookup(reg, name) == Some(r.value)
    ensures r.Err? ==> r.error == NotFound(reg, name, listKeys)
  {
    match Lookup(reg, name)
    case Some(d) => Ok(d)
    case None => Err(NotFound(reg, name, listKeys))
  }

  // ---------------------------------------------------------------- descriptors

  /** `capabilities.find(cap => cap.type === capType && cap.instance === instance)`. */
  function FindCapability(caps: seq<Capability>, capType: string, instance: string): (r: Option<Capability>)
    ensures r.Some? ==> r.value in caps && r.value.capType == capType && r.value.instance == instance
    ensures r.None? <==> forall c :: c in caps ==> !(c.capType == capType && c.instance == instance)
    ensures r.Some? ==> exists i :: 0 <= i < |caps| && caps[i] == r.value && NoCapabilityBefore(caps, capType, instance, i)
  {
    var i := First(caps, (c: Capability) => c.capType == capType && c.instance == instance);
    if i == -1 then None else Some(caps[i])
  }

  /** No descriptor before position `i` has the given type and instance. */
  predicate NoCapabilityBefore(caps: seq<Capability>, capType: string, instance: string, i: int)
    requires 0 <= i <= |caps|
  {
    forall j :: 0 <= j < i ==> !(caps[j].capType == capType && caps[j].instance == instance)
  }

  /** `cap?.parameters?.dataType === "INTEGER" && cap.parameters.range`: the range an
      INTEGER descriptor declares, if the descriptor is present and declares one. */
  function IntegerRange(cap: Option<Capability>): (r: Option<Range>)
    ensures r.Some? <==> cap.Some? && cap.value.parameters.dataType == Integer && cap.value.parameters.range.Some?
    ensures r.Some? ==> r.value == cap.value.parameters.range.value
  {
    if cap.Some? && cap.value.parameters.dataType == Integer then cap.value.parameters.range else None
  }

  /** The range a device's INTEGER descriptor `(capType, "1")` declares, if any. */
  function DescriptorRange(d: Device, capType: string): Option<Range>
  {
    IntegerRange(FindCapability(d.capabilities, capType, "1"))
  }

  /** What a lamp's three descriptors declare. */
  lemma LampDescriptors(minK: int, maxK: int)
    ensures FindCapability(LampCapabilities(minK, maxK), "powerSwitch", "1") == Some(OnOffCapability("powerSwitch"))
    ensures IntegerRange(FindCapability(LampCapabilities(minK, maxK), "brightness", "1")) == Some(Range(0, 100, 1))
    ensures IntegerRange(FindCapability(LampCapabilities(minK, maxK), "colorTemperature", "1")) == Some(Range(minK, maxK, 100))
    ensures FindCapability(LampCapabilities(minK, maxK), "colorRgb", "1") == None
    ensures forall c :: c in LampCapabilities(minK, maxK) ==>
              c.capType != "" && c.instance == "1" && c.capType != "devices.capabilities.color_setting"
  {
    var caps := LampCapabilities(minK, maxK);
    assert caps[0].capType == "powerSwitch";
    assert caps[1].capType == "brightness";
    assert caps[2].capType == "colorTemperature";
  }

  /** What a bulb's four descriptors declare. */
  lemma BulbDescriptors(minK: int, maxK: int)
    ensures FindCapability(BulbCapabilities(minK, maxK), "powerSwitch", "1") == Some(OnOffCapability("powerSwitch"))
    ensures IntegerRange(FindCapability(BulbCapabilities(minK, maxK), "brightness", "1")) == Some(Range(0, 100, 1))
    ensures IntegerRange(FindCapability(BulbCapabilities(minK, maxK), "colorTemperature", "1")) == Some(Range(minK, maxK, 100))
    ensures IntegerRange(FindCapability(BulbCapabilities(minK, maxK), "colorRgb", "1")) == Some(Range(0, 0xFF_FFFF, 1))
    ensures forall c :: c in BulbCapabilities(minK, maxK) ==>
              c.capType != "" && c.instance == "1" && c.capType != "devices.capabilities.color_setting"
  {
    var caps := BulbCapabilities(minK, maxK);
    assert caps[0].capType == "powerSwitch";
    assert caps[1].capType == "brightness";
    assert caps[2].capType == "colorTemperature";
    assert caps[3].capType == "colorRgb";
  }

  /** What `getDeviceCapabilities` stores per key. */
  datatype CapInfo = CapInfo(instance: string, parameters: Parameters)

  /** The template key `${type}.${instance}`. */
  function CapKey(c: Capability): string
  {
    c.capType + "." + c.instance
  }

  function Info(c: Capability): CapInfo
  {
    CapInfo(c.instance, c.parameters)
  }

  /** The `reduce` of `getDeviceCapabilities`: one entry per "type.instance" key,
      a later descriptor with the same key overwriting an earlier one. */
  function CapabilityIndex(caps: seq<Capability>): map<string, CapInfo>
  {
    if |caps| == 0 then map[]
    else
      var last := caps[|caps| - 1];
      CapabilityIndex(caps[..|caps| - 1])[CapKey(last) := Info(last)]
  }

  /** The keys of the index are exactly the "type.instance" keys of the descriptors, and
      each key holds the information of some descriptor with that key. */
  lemma {:induction false} CapabilityIndexKeys(caps: seq<Capability>)
    ensures forall i :: 0 <= i < |caps| ==> CapKey(caps[i]) in CapabilityIndex(caps)
    ensures forall k :: k in CapabilityIndex(caps) ==>
              exists i :: 0 <= i < |caps| && CapKey(caps[i]) == k && CapabilityIndex(caps)[k] == Info(caps[i])
  {
    if |caps| > 0 {
      var init := caps[..|caps| - 1];
      CapabilityIndexKeys(init);
      var m := CapabilityIndex(caps);
      assert m == CapabilityIndex(init)[CapKey(caps[|caps| - 1]) := Info(caps[|caps| - 1])];
      forall i | 0 <= i < |caps| ensures CapKey(caps[i]) in m {
        if i < |caps| - 1 {
          assert caps[i] == init[i];
        }
      }
      forall k | k in m
        ensures exists i :: 0 <= i < |caps| && CapKey(caps[i]) == k && m[k] == Info(caps[i])
      {
        if k == CapKey(caps[|caps| - 1]) {
          assert CapKey(caps[|caps| - 1]) == k && m[k] == Info(caps[|caps| - 1]);
        } else {
          var i :| 0 <= i < |init| && CapKey(init[i]) == k && CapabilityIndex(init)[k] == Info(init[i]);
          assert caps[i] == init[i];
        }
      }
    }
  }

  /** A descriptor whose key no later descriptor repeats is the one the index keeps. */
  lemma {:induction false} CapabilityIndexLastWins(caps: seq<Capability>, i: nat)
    requires i < |caps|
    requires forall j :: i < j < |caps| ==> CapKey(caps[j]) != CapKey(caps[i])
    ensures CapKey(caps[i]) in CapabilityIndex(caps)
    ensures CapabilityIndex(caps)[CapKey(caps[i])] == Info(caps[i])
  {
    var init := caps[..|caps| - 1];
    if i < |caps| - 1 {
      forall j | i < j < |init| ensures CapKey(init[j]) != CapKey(init[i]) {
        assert init[j] == caps[j];
      }
      CapabilityIndexLastWins(init, i);
      assert init[i] == caps[i];
    }
  }

  /** The index, described without the fold: its keys are exactly the descriptors' keys,
      each value comes from a descriptor with that key, and a descriptor whose key is not
      repeated later is the one kept. */
  predicate IndexesCapabilities(caps: seq<Capability>, m: map<string, CapInfo>)
  {
    && (forall i :: 0 <= i < |caps| ==> CapKey(caps[i]) in m)
    && (forall k :: k in m ==> exists i :: 0 <= i < |caps| && CapKey(caps[i]) == k && m[k] == Info(caps[i]))
    && (forall i :: 0 <= i < |caps| && LastWithKey(caps, i) ==> m[CapKey(caps[i])] == Info(caps[i]))
  }

  /** No descriptor after position `i` has the key of descriptor `i`. */
  predicate LastWithKey(caps: seq<Capability>, i: nat)
    requires i < |caps|
  {
    forall j :: i < j < |caps| ==> CapKey(caps[j]) != CapKey(caps[i])
  }

  lemma CapabilityIndexDescribed(caps: seq<Capability>)
    ensures IndexesCapabilities(caps, CapabilityIndex(caps))
  {
    CapabilityIndexKeys(caps);
    forall i | 0 <= i < |caps| && LastWithKey(caps, i)
      ensures CapabilityIndex(caps)[CapKey(caps[i])] == Info(caps[i])
    {
      CapabilityIndexLastWins(caps, i);
    }
  }

  // ---------------------------------------------------------------- state entries

  /** `capabilities.find(cap => cap.type === capType && cap.instance === instance)` over a state response. */
  function FindEntry(entries: seq<StateEntry>, capType: string, instance: string): (r: Option<StateEntry>)
    ensures r.Some? ==> r.value in entries && r.value.capType == capType && r.value.instance == instance
    ensures r.Some? ==> exists i :: 0 <= i < |entries| && entries[i] == r.value && NoMatchBefore(entries, capType, instance, i)
    ensures r.None? <==> forall e :: e in entries ==> !(e.capType == capType && e.instance == instance)
  {
    var i := First(entries, (e: StateEntry) => e.capType == capType && e.instance == instance);
    if i == -1 then None else Some(entries[i])
  }

  predicate NoMatchBefore(entries: seq<StateEntry>, capType: string, instance: string, i: int)
    requires 0 <= i <= |entries|
  {
    forall j :: 0 <= j < i ==> !(entries[j].capType == capType && entries[j].instance == instance)
  }

  /** `find` returns the first matching entry: when entry `i` matches and none before it does,
      the value read is entry `i`'s. */
  lemma ReadStateFirst(entries: seq<StateEntry>, capType: string, instance: string, i: nat)
    requires i < |entries| && entries[i].capType == capType && entries[i].instance == instance
    requires NoMatchBefore(entries, capType, instance, i)
    ensures FindEntry(entries, capType, instance) == Some(entries[i])
    ensures ReadState(entries, capType, instance) == StateValue(Some(entries[i]))
  {
    var r := FindEntry(entries, capType, instance);
    assert entries[i] in entries;
    var j :| 0 <= j < |entries| && entries[j] == r.value && NoMatchBefore(entries, capType, instance, j);
    assert j == i;
  }

  /** `entry?.state?.value`. */
  function StateValue(entry: Option<StateEntry>): (v: Option<Json>)
    ensures v.Some? <==> entry.Some? && entry.value.state.State? && entry.value.state.value.Some?
  {
    if entry.Some? && entry.value.state.State? then entry.value.state.value else None
  }

  /** The value `find` then `?.state?.value` reads for one (type, instance) pair. */
  function ReadState(entries: seq<StateEntry>, capType: string, instance: string): Option<Json>
  {
    StateValue(FindEntry(entries, capType, instance))
  }

  /** `value === 1`. */
  predicate IsOne(v: Option<Json>)
  {
    v == Some(JNum(1))
  }

  /** JavaScript truthiness of a state value (undefined, 0, false and "" are falsy). */
  predicate Truthy(v: Option<Json>)
  {
    match v
    case None => false
    case Some(JNum(n)) => n != 0
    case Some(JBool(b)) => b
    case Some(JText(s)) => s != ""
  }
}
