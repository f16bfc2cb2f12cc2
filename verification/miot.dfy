/**
 * The MIoT addressing scheme the adapter speaks: a property lives at a device
 * id (`did`), a service id (`siid`) and a property id (`piid`). Reads arrive as
 * raw records that a guarded mapper accepts or refuses; writes leave as a
 * `set_properties` call with a list of `{did, siid, piid, value}` entries.
 */
module Miot {
  import opened JsValues

  /** The `{ did, siid, piid }` object a property is registered under. */
  datatype Address = Address(did: string, siid: int, piid: int)

  /**
   * One raw property record as a mapper receives it. Its fields are whatever
   * the device sent, so `siid` and `piid` are arbitrary values; an absent field
   * reads as Undefined.
   */
  datatype RawRecord = RawRecord(siid: JsValue, piid: JsValue, value: JsValue)

  /**
   * A mapper closure `v => { if (siid === S && piid === P) return v.value; }`,
   * represented by the pair (S, P) it tests.
   */
  datatype Mapper = Guard(siid: int, piid: int)

  /** The `{ name, mapper }` options given to `defineProperty`. */
  datatype PropertyOptions = PropertyOptions(name: string, mapper: Mapper)

  /** One registration: the address and the options passed together. */
  datatype PropertyDefinition = PropertyDefinition(address: Address, options: PropertyOptions)

  /** JavaScript `===` on primitives: same kind and same value, no conversion. */
  predicate StrictEquals(a: JsValue, b: JsValue) {
    a == b
  }

  /** The record's `siid` and `piid` are exactly the numbers of the address. */
  predicate AddressedTo(rec: RawRecord, a: Address) {
    StrictEquals(rec.siid, Int(a.siid)) && StrictEquals(rec.piid, Int(a.piid))
  }

  /** Runs a mapper on a record; None stands for the closure falling off its end. */
  function ApplyMapper(m: Mapper, rec: RawRecord): (r: Option<JsValue>)
    ensures r.Some? <==> rec.siid == Int(m.siid) && rec.piid == Int(m.piid)
    ensures r.Some? ==> r.value == rec.value
  {
    if StrictEquals(rec.siid, Int(m.siid)) && StrictEquals(rec.piid, Int(m.piid)) then
      Some(rec.value)
    else
      None
  }

  /** The JavaScript value a mapper returns: a refusal is `undefined`. */
  function MapperReturn(r: Option<JsValue>): (v: JsValue) {
    match r
    case Some(v) => v
    case None => Undefined
  }

  /**
   * In JavaScript a record whose guard matches but whose `value` is absent
   * yields the same `undefined` as a refused record.
   */
  lemma MatchedUndefinedLooksRefused(m: Mapper, rec: RawRecord, other: RawRecord)
    requires rec.siid == Int(m.siid) && rec.piid == Int(m.piid) && rec.value == Undefined
    requires other.siid != Int(m.siid)
    ensures ApplyMapper(m, rec) != ApplyMapper(m, other)
    ensures MapperReturn(ApplyMapper(m, rec)) == MapperReturn(ApplyMapper(m, other))
  {
  }

  // ---------------------------------------------------------------------------
  // Properties of a registration table.
  // ---------------------------------------------------------------------------

  /** Every mapper tests exactly the (siid, piid) pair of the address it was registered with. */
  predicate GuardsAgree(t: seq<PropertyDefinition>) {
    forall i :: 0 <= i < |t| ==>
      t[i].options.mapper.siid == t[i].address.siid && t[i].options.mapper.piid == t[i].address.piid
  }

  /** No two registrations share a (siid, piid) pair. */
  predicate DistinctPairs(t: seq<PropertyDefinition>) {
    forall i, j :: 0 <= i < j < |t| ==>
      t[i].address.siid != t[j].address.siid || t[i].address.piid != t[j].address.piid
  }

  /** No two registrations share a name. */
  predicate DistinctNames(t: seq<PropertyDefinition>) {
    forall i, j :: 0 <= i < j < |t| ==> t[i].options.name != t[j].options.name
  }

  /** How many mappers of the table accept the record. */
  function AcceptCount(t: seq<PropertyDefinition>, rec: RawRecord): (n: nat) {
    if t == [] then 0
    else (if ApplyMapper(t[0].options.mapper, rec).Some? then 1 else 0) + AcceptCount(t[1..], rec)
  }

  /**
   * With agreeing guards and distinct pairs, a record is accepted by at most
   * one mapper, and by exactly one when it is addressed to a registered pair.
   */
  lemma {:induction false} AtMostOneMapperAccepts(t: seq<PropertyDefinition>, rec: RawRecord)
    requires GuardsAgree(t) && DistinctPairs(t)
    ensures AcceptCount(t, rec) <= 1
    ensures AcceptCount(t, rec) == 1 <==> exists i :: 0 <= i < |t| && AddressedTo(rec, t[i].address)
  {
    if t != [] {
      var tail := t[1..];
      assert GuardsAgree(tail) && DistinctPairs(tail) by {
        forall i | 0 <= i < |tail| ensures tail[i] == t[i + 1] { }
      }
      AtMostOneMapperAccepts(tail, rec);
      if AddressedTo(rec, t[0].address) {
        forall j | 0 <= j < |tail| ensures !AddressedTo(rec, tail[j].address) {
          assert tail[j] == t[j + 1];
        }
      } else {
        if exists i :: 0 <= i < |t| && AddressedTo(rec, t[i].address) {
          var i :| 0 <= i < |t| && AddressedTo(rec, t[i].address);
          assert tail[i - 1] == t[i];
        }
        if AcceptCount(tail, rec) == 1 {
          var j :| 0 <= j < |tail| && AddressedTo(rec, tail[j].address);
          assert tail[j] == t[j + 1];
        }
      }
    }
  }

  /** The address registered under `name`: the first registration carrying it. */
  function AddressOf(t: seq<PropertyDefinition>, name: string): (r: Option<Address>) {
    if t == [] then None
    else if t[0].options.name == name then Some(t[0].address)
    else AddressOf(t[1..], name)
  }

  /**
   * The lookup fails exactly when no registration carries the name, and
   * otherwise returns the address of the earliest one that does.
   */
  lemma {:induction false} AddressOfFindsFirst(t: seq<PropertyDefinition>, name: string)
    ensures AddressOf(t, name).None? <==> forall i :: 0 <= i < |t| ==> t[i].options.name != name
    ensures AddressOf(t, name).Some? ==>
              exists i :: 0 <= i < |t| && t[i].options.name == name && t[i].address == AddressOf(t, name).value &&
                          forall j :: 0 <= j < i ==> t[j].options.name != name
  {
    if t != [] && t[0].options.name != name {
      var tail := t[1..];
      AddressOfFindsFirst(tail, name);
      forall i | 0 <= i < |tail| ensures tail[i] == t[i + 1] { }
      if AddressOf(tail, name).Some? {
        var i :| 0 <= i < |tail| && tail[i].options.name == name && tail[i].address == AddressOf(tail, name).value &&
                 forall j :: 0 <= j < i ==> tail[j].options.name != name;
        assert forall j :: 0 <= j < i + 1 ==> t[j].options.name != name by {
          forall j | 0 <= j < i + 1 ensures t[j].options.name != name {
            if j > 0 { assert t[j] == tail[j - 1]; }
          }
        }
      }
    }
  }

  /** With distinct names, the lookup finds the one registration carrying the name. */
  lemma AddressOfUnique(t: seq<PropertyDefinition>, i: nat)
    requires DistinctNames(t)
    requires i < |t|
    ensures AddressOf(t, t[i].options.name) == Some(t[i].address)
  {
    AddressOfFindsFirst(t, t[i].options.name);
  }

  // ---------------------------------------------------------------------------
  // Writes and replies.
  // ---------------------------------------------------------------------------

  /** One `{ did, siid, piid, value }` entry of a `set_properties` call. */
  datatype SetEntry = SetEntry(did: string, siid: int, piid: int, value: JsValue)

  /** An RPC call: method name and parameter list. */
  datatype Call = Call(rpc: string, params: seq<SetEntry>)

  /** How the RPC promise settles. */
  datatype Reply = Resolved(value: JsValue) | Rejected(reason: JsValue)

  function EntryAddress(e: SetEntry): (a: Address) {
    Address(e.did, e.siid, e.piid)
  }

  /** `c` is a `set_properties` call writing `v` to `a` and nothing else. */
  predicate SingleWrite(c: Call, a: Address, v: JsValue) {
    c.rpc == "set_properties" && |c.params| == 1 && EntryAddress(c.params[0]) == a && c.params[0].value == v
  }

  /** The one-element `set_properties` payload the change commands build. */
  function SetProperty(a: Address, v: JsValue): (c: Call)
    ensures SingleWrite(c, a, v)
  {
    Call("set_properties", [SetEntry(a.did, a.siid, a.piid, v)])
  }

  /**
   * `.then(() => null)`: a fulfilled reply is replaced by `null`; a rejection
   * has no handler and passes through with its reason.
   */
  function ThenNull(p: Reply): (q: Reply)
    ensures q.Resolved? <==> p.Resolved?
    ensures q.Resolved? ==> q.value == Null
    ensures q.Rejected? ==> q == p
  {
    match p
    case Resolved(_) => Resolved(Null)
    case Rejected(_) => p
  }
}
