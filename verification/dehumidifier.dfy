/**
 * The Mi dehumidifier adapter: the eight MIoT properties it registers when it
 * is constructed, and the five change commands that write to the appliance.
 */
module DehumidifierDevice {
  import opened JsValues
  import opened Miot

  /** The names the adapter registers, in registration order. */
  const PropertyNames: seq<string> :=
    ["power", "mode", "humidity", "temp", "led", "child_lock", "buzzer", "water_tank"]

  /** The (siid, piid) pair the appliance uses for each of those names, in the same order. */
  const PropertyPairs: seq<(int, int)> :=
    [(2, 1), (2, 3), (3, 1), (3, 7), (5, 1), (6, 1), (4, 1), (7, 3)]

  /**
   * `t` is the dehumidifier's table for device id `did`: the eight names in
   * order, each at its wire pair under `did`, each mapper guarding that pair.
   */
  predicate IsDehumidifierTable(t: seq<PropertyDefinition>, did: string) {
    |t| == |PropertyNames| &&
    forall i :: 0 <= i < |t| ==>
      t[i].options.name == PropertyNames[i] &&
      t[i].address == Address(did, PropertyPairs[i].0, PropertyPairs[i].1) &&
      t[i].options.mapper == Guard(PropertyPairs[i].0, PropertyPairs[i].1)
  }

  class Dehumidifier {
    /** `this.handle.api.id`, the identifier of the appliance this adapter talks to. */
    const apiId: JsValue
    /** The property table the base class keeps, in registration order. */
    var properties: seq<PropertyDefinition>

    /** The `did` every address and every write carries: `${id}`. */
    function Did(): (did: string) {
      ToJsString(apiId)
    }

    ghost predicate Valid()
      reads this
    {
      IsDehumidifierTable(properties, Did())
    }

    /** `defineProperty(address, options)`: appends one registration. */
    method DefineProperty(address: Address, options: PropertyOptions)
      modifies this
      ensures properties == old(properties) + [PropertyDefinition(address, options)]
    {
      properties := properties + [PropertyDefinition(address, options)];
    }

    /**
     * Registers the eight properties one after another; each registration
     * writes its pair once in the address and once in the mapper's guard.
     */
    constructor (apiId: JsValue)
      ensures this.apiId == apiId
      ensures Valid()
    {
      this.apiId := apiId;
      properties := [];
      new;
      var did := ToJsString(apiId);
      DefineProperty(Address(did, 2, 1), PropertyOptions("power", Guard(2, 1)));
      DefineProperty(Address(did, 2, 3), PropertyOptions("mode", Guard(2, 3)));
      DefineProperty(Address(did, 3, 1), PropertyOptions("humidity", Guard(3, 1)));
      DefineProperty(Address(did, 3, 7), PropertyOptions("temp", Guard(3, 7)));
      DefineProperty(Address(did, 5, 1), PropertyOptions("led", Guard(5, 1)));
      DefineProperty(Address(did, 6, 1), PropertyOptions("child_lock", Guard(6, 1)));
      DefineProperty(Address(did, 4, 1), PropertyOptions("buzzer", Guard(4, 1)));
      DefineProperty(Address(did, 7, 3), PropertyOptions("water_tank", Guard(7, 3)));
    }

    // -------------------------------------------------------------------------
    // The payloads of the change commands.
    // -------------------------------------------------------------------------

    /** `changePower(value)` writes the boolean of `value` to power. */
    function PowerRequest(value: JsValue): (c: Call)
      ensures SingleWrite(c, Address(Did(), 2, 1), Bool(Truthy(value)))
    {
      SetProperty(Address(Did(), 2, 1), NotNot(value))
    }

    /** `changeMode(value)` writes `value` to mode as given, whatever it is. */
    function ModeRequest(value: JsValue): (c: Call)
      ensures SingleWrite(c, Address(Did(), 2, 3), value)
    {
      SetProperty(Address(Did(), 2, 3), value)
    }

    /** `changeIndicatorLight(value)` writes the boolean of `value` to led. */
    function IndicatorLightRequest(value: JsValue): (c: Call)
      ensures SingleWrite(c, Address(Did(), 5, 1), Bool(Truthy(value)))
    {
      SetProperty(Address(Did(), 5, 1), NotNot(value))
    }

    /** `changeChildLock(value)` writes the boolean of `value` to child_lock. */
    function ChildLockRequest(value: JsValue): (c: Call)
      ensures SingleWrite(c, Address(Did(), 6, 1), Bool(Truthy(value)))
    {
      SetProperty(Address(Did(), 6, 1), NotNot(value))
    }

    /** `changeBuzzer(value)` writes the boolean of `value` to buzzer. */
    function BuzzerRequest(value: JsValue): (c: Call)
      ensures SingleWrite(c, Address(Did(), 4, 1), Bool(Truthy(value)))
    {
      SetProperty(Address(Did(), 4, 1), NotNot(value))
    }

    // -------------------------------------------------------------------------
    // The change commands: the request goes through `call`, the transport.
    // -------------------------------------------------------------------------

    /**
     * Sends one write of the value's truthiness to power and settles exactly
     * as the transport's reply to that write does, value included.
     */
    function ChangePower(value: JsValue, call: Call -> Reply): (r: Reply)
      ensures exists c :: SingleWrite(c, Address(Did(), 2, 1), Bool(Truthy(value))) && r == call(c)
    {
      call(PowerRequest(value))
    }

    /**
     * Sends one write of the value, unchanged, to mode and settles exactly as
     * the transport's reply to that write does, value included.
     */
    function ChangeMode(value: JsValue, call: Call -> Reply): (r: Reply)
      ensures exists c :: SingleWrite(c, Address(Did(), 2, 3), value) && r == call(c)
    {
      call(ModeRequest(value))
    }

    /** Resolves to null when the transport resolves; otherwise rejects with the same reason. */
    function ChangeIndicatorLight(value: JsValue, call: Call -> Reply): (r: Reply)
      ensures r.Resolved? <==> call(IndicatorLightRequest(value)).Resolved?
      ensures r.Resolved? ==> r.value == Null
      ensures r.Rejected? ==> r == call(IndicatorLightRequest(value))
    {
      ThenNull(call(IndicatorLightRequest(value)))
    }

    /** Resolves to null when the transport resolves; otherwise rejects with the same reason. */
    function ChangeChildLock(value: JsValue, call: Call -> Reply): (r: Reply)
      ensures r.Resolved? <==> call(ChildLockRequest(value)).Resolved?
      ensures r.Resolved? ==> r.value == Null
      ensures r.Rejected? ==> r == call(ChildLockRequest(value))
    {
      ThenNull(call(ChildLockRequest(value)))
    }

    /** Resolves to null when the transport resolves; otherwise rejects with the same reason. */
    function ChangeBuzzer(value: JsValue, call: Call -> Reply): (r: Reply)
      ensures r.Resolved? <==> call(BuzzerRequest(value)).Resolved?
      ensures r.Resolved? ==> r.value == Null
      ensures r.Rejected? ==> r == call(BuzzerRequest(value))
    {
      ThenNull(call(BuzzerRequest(value)))
    }
  }

  // ---------------------------------------------------------------------------
  // What the table guarantees.
  // ---------------------------------------------------------------------------

  /** The eight registered names are pairwise distinct. */
  lemma TableNamesDistinct(t: seq<PropertyDefinition>, did: string)
    requires IsDehumidifierTable(t, did)
    ensures DistinctNames(t)
  {
  }

  /** The eight registered (siid, piid) pairs are pairwise distinct. */
  lemma TablePairsDistinct(t: seq<PropertyDefinition>, did: string)
    requires IsDehumidifierTable(t, did)
    ensures DistinctPairs(t)
  {
  }

  /** Each registered address carries the device id, and each mapper guards its own address. */
  lemma TableGuardsAgree(t: seq<PropertyDefinition>, did: string)
    requires IsDehumidifierTable(t, did)
    ensures GuardsAgree(t)
    ensures forall i :: 0 <= i < |t| ==> t[i].address.did == did
  {
  }

  /**
   * The mapper registered at position `i` hands back the value of exactly the
   * records addressed to its own pair, and refuses every other record.
   */
  lemma TableMapperSelectsOwnRecords(t: seq<PropertyDefinition>, did: string, i: nat, rec: RawRecord)
    requires IsDehumidifierTable(t, did)
    requires i < |t|
    ensures ApplyMapper(t[i].options.mapper, rec) ==
            if AddressedTo(rec, t[i].address) then Some(rec.value) else None
  {
  }

  /**
   * The power mapper (2/1) and the water_tank mapper (7/3) on sample records;
   * a `siid` sent as the string "7" is refused, since `===` does not convert.
   */
  lemma MapperExamples(d: Dehumidifier)
    requires d.Valid()
    ensures d.properties[0].options.name == "power"
    ensures ApplyMapper(d.properties[0].options.mapper, RawRecord(Int(2), Int(1), Bool(true))) == Some(Bool(true))
    ensures ApplyMapper(d.properties[0].options.mapper, RawRecord(Int(2), Int(3), Int(2))) == None
    ensures d.properties[7].options.name == "water_tank"
    ensures ApplyMapper(d.properties[7].options.mapper, RawRecord(Int(7), Int(3), Int(1))) == Some(Int(1))
    ensures ApplyMapper(d.properties[7].options.mapper, RawRecord(Str("7"), Int(3), Int(1))) == None
  {
  }

  /**
   * Any record is accepted by at most one of the eight mappers, and by one
   * exactly when its (siid, piid) is one of the registered pairs.
   */
  lemma TableAcceptsAtMostOnce(t: seq<PropertyDefinition>, did: string, rec: RawRecord)
    requires IsDehumidifierTable(t, did)
    ensures AcceptCount(t, rec) <= 1
    ensures AcceptCount(t, rec) == 1 <==>
            exists k :: 0 <= k < |PropertyPairs| && rec.siid == Int(PropertyPairs[k].0) && rec.piid == Int(PropertyPairs[k].1)
  {
    TablePairsDistinct(t, did);
    TableGuardsAgree(t, did);
    AtMostOneMapperAccepts(t, rec);
    if AcceptCount(t, rec) == 1 {
      var i :| 0 <= i < |t| && AddressedTo(rec, t[i].address);
      assert rec.siid == Int(PropertyPairs[i].0) && rec.piid == Int(PropertyPairs[i].1);
    }
    if exists k :: 0 <= k < |PropertyPairs| && rec.siid == Int(PropertyPairs[k].0) && rec.piid == Int(PropertyPairs[k].1) {
      var k :| 0 <= k < |PropertyPairs| && rec.siid == Int(PropertyPairs[k].0) && rec.piid == Int(PropertyPairs[k].1);
      assert AddressedTo(rec, t[k].address);
    }
  }

  /** Devices with different numeric ids put different `did`s on the wire. */
  lemma DidIdentifiesDevice(a: Dehumidifier, b: Dehumidifier)
    requires a.apiId.Int? && b.apiId.Int? && a.Did() == b.Did()
    ensures a.apiId == b.apiId
  {
    NumberToStringInjective(a.apiId.i, b.apiId.i);
  }

  /**
   * Each command writes to the address registered under the property it
   * changes, `did` included: power, mode, led, child_lock and buzzer.
   */
  lemma WritesTargetReadAddresses(d: Dehumidifier, value: JsValue)
    requires d.Valid()
    ensures AddressOf(d.properties, "power") == Some(EntryAddress(d.PowerRequest(value).params[0]))
    ensures AddressOf(d.properties, "mode") == Some(EntryAddress(d.ModeRequest(value).params[0]))
    ensures AddressOf(d.properties, "led") == Some(EntryAddress(d.IndicatorLightRequest(value).params[0]))
    ensures AddressOf(d.properties, "child_lock") == Some(EntryAddress(d.ChildLockRequest(value).params[0]))
    ensures AddressOf(d.properties, "buzzer") == Some(EntryAddress(d.BuzzerRequest(value).params[0]))
  {
    TableNamesDistinct(d.properties, d.Did());
    AddressOfUnique(d.properties, 0);
    AddressOfUnique(d.properties, 1);
    AddressOfUnique(d.properties, 4);
    AddressOfUnique(d.properties, 5);
    AddressOfUnique(d.properties, 6);
  }

  /**
   * The written value of the four switch commands is always a boolean, for
   * every input; mode is written unchanged, including values outside 1, 2, 3.
   */
  lemma WrittenValues(d: Dehumidifier, value: JsValue)
    ensures d.PowerRequest(value).params[0].value.Bool?
    ensures d.IndicatorLightRequest(value).params[0].value.Bool?
    ensures d.ChildLockRequest(value).params[0].value.Bool?
    ensures d.BuzzerRequest(value).params[0].value.Bool?
    ensures d.ModeRequest(value).params[0].value == value
  {
  }
}
