# Mi dehumidifier adapter — a Dafny model

This project models the adapter that presents a Mi dehumidifier as a set of
named properties and commands (`lib/devices/dehumidifier.js`). The appliance
addresses its state over MIoT by a device id (`did`), a service id (`siid`) and
a property id (`piid`). The adapter does two things:

- **Reading.** At construction it registers eight properties with the base
  class's `defineProperty`: power, mode, humidity, temp, led, child_lock,
  buzzer and water_tank. Each one has a wire address `{did, siid, piid}` and a
  `mapper`. The mapper returns a raw record's `value` only when the record's
  `siid` and `piid` strictly equal its own pair. Otherwise it returns `undefined`.
- **Writing.** `changePower`, `changeMode`, `changeIndicatorLight`,
  `changeChildLock` and `changeBuzzer` each send a one-element
  `set_properties` list to a fixed address. The four switch commands coerce the
  value with `!!`. The last three replace a successful reply with `null`.

Files:

- `js_values.dfy` (module `JsValues`): the JavaScript values involved
  (undefined, null, booleans, integers, strings); truthiness; `!` and `!!`; the
  string conversion `${id}` performs on these values, with integers printed in
  plain decimal, and the decimal reading that inverts it.
- `miot.dfy` (module `Miot`): addresses, raw records, guard mappers,
  registrations, `set_properties` payloads, replies and `.then(() => null)`.
  It also states properties of a registration table: guards agree with
  addresses, pairs are distinct, names are distinct, and at most one mapper
  accepts a record. It adds a name lookup.
- `dehumidifier.dfy` (module `DehumidifierDevice`): the class `Dehumidifier`.
  Its `properties` field is a sequence that `DefineProperty` appends to, once
  per registration in the constructor. The class also holds the five write
  payloads and the five change commands. The module ends with the lemmas that
  tie the table and the writes together.

The appliance's wire table (`PropertyNames`, `PropertyPairs`) is the reference
the constructor is proved against. Each registration writes its pair twice,
once in the address and once in the mapper's guard, as the source does. The
constructor's contract shows that both copies match the wire table.

What the code does and does not do:

- The temperature reading is registered under the name `temp`.
- `changeMode` forwards any value. Its comment lists the modes 1, 2 and 3,
  but nothing rejects other values.
- `changePower` and `changeMode` return the transport's reply unchanged. The
  other three commands replace a successful reply with `null`.
- This file raises no error of its own: nothing checks for duplicate names,
  late registration or invalid values.

## Model

| member | source | states |
|---|---|---|
| `JsValues.NotNot` | lib/devices/dehumidifier.js:158 | `!!value` is defined for every input, always gives a boolean, and keeps the input's truthiness |
| `JsValues.NotNotKeepsBooleans` | lib/devices/dehumidifier.js:158 | coercing a value that is already a boolean leaves it unchanged |
| `JsValues.ToJsString` | lib/devices/dehumidifier.js:35 | `${id}` is the id itself for a string; for a non-negative integer it is a string of digits without a leading zero (`"0"` for zero) whose decimal value is the id; for a negative integer it is `-` followed by such digits denoting the id's magnitude |
| `JsValues.NumberToString` | lib/devices/dehumidifier.js:158 | an integer prints as digits without a leading zero denoting its magnitude, after a `-` exactly when it is negative; zero prints as `"0"` |
| `JsValues.NumberToStringInjective` | lib/devices/dehumidifier.js:35 | two different integer ids never print as the same `did` |
| `Miot.ApplyMapper` | lib/devices/dehumidifier.js:38-44 | a mapper returns `Some(record.value)` exactly when the record's siid and piid strictly equal its guard pair, and `None` (`undefined`) otherwise |
| `Miot.MatchedUndefinedLooksRefused` | lib/devices/dehumidifier.js:38-44 | a matching record without a `value` and a refused record are told apart by the model but both return `undefined` in JavaScript |
| `Miot.AtMostOneMapperAccepts` | lib/devices/dehumidifier.js:34-152 | when each guard agrees with its address and all pairs are distinct, at most one mapper accepts a record, and exactly one does when the record is addressed to a registered pair |
| `Miot.SetProperty` | lib/devices/dehumidifier.js:157-159 | the payload is a `set_properties` call with one entry that writes the given value to the given address |
| `Miot.ThenNull` | lib/devices/dehumidifier.js:180 | `.then(() => null)` resolves to `null` exactly when the reply resolves, and a rejection passes through with its reason |
| `DehumidifierDevice.Dehumidifier.DefineProperty` | lib/devices/dehumidifier.js:34-46 | a registration appends one definition to the table and changes nothing else |
| `DehumidifierDevice.Dehumidifier.constructor` | lib/devices/dehumidifier.js:29-153 | after the eight registrations the table holds the eight names in source order, each at its wire pair under `${id}`, with a mapper guarding that same pair |
| `DehumidifierDevice.Dehumidifier.PowerRequest` | lib/devices/dehumidifier.js:155-160 | changePower writes the boolean of the value's truthiness to did/2/1, as a single entry |
| `DehumidifierDevice.Dehumidifier.ModeRequest` | lib/devices/dehumidifier.js:166-173 | changeMode writes the value unchanged to did/2/3, as a single entry, with no range check |
| `DehumidifierDevice.Dehumidifier.IndicatorLightRequest` | lib/devices/dehumidifier.js:175-181 | changeIndicatorLight writes the boolean of the value's truthiness to did/5/1, as a single entry |
| `DehumidifierDevice.Dehumidifier.ChildLockRequest` | lib/devices/dehumidifier.js:183-189 | changeChildLock writes the boolean of the value's truthiness to did/6/1, as a single entry |
| `DehumidifierDevice.Dehumidifier.BuzzerRequest` | lib/devices/dehumidifier.js:191-197 | changeBuzzer writes the boolean of the value's truthiness to did/4/1, as a single entry |
| `DehumidifierDevice.Dehumidifier.ChangePower` | lib/devices/dehumidifier.js:155-160 | changePower hands the transport one write of the value's truthiness to did/2/1 and settles exactly as the reply to that write, value included |
| `DehumidifierDevice.Dehumidifier.ChangeMode` | lib/devices/dehumidifier.js:167-173 | changeMode hands the transport one write of the unchanged value to did/2/3 and settles exactly as the reply to that write, value included |
| `DehumidifierDevice.Dehumidifier.ChangeIndicatorLight` | lib/devices/dehumidifier.js:175-181 | changeIndicatorLight resolves to `null` exactly when the transport resolves, and otherwise rejects with the transport's reason |
| `DehumidifierDevice.Dehumidifier.ChangeChildLock` | lib/devices/dehumidifier.js:183-189 | changeChildLock resolves to `null` exactly when the transport resolves, and otherwise rejects with the transport's reason |
| `DehumidifierDevice.Dehumidifier.ChangeBuzzer` | lib/devices/dehumidifier.js:191-197 | changeBuzzer resolves to `null` exactly when the transport resolves, and otherwise rejects with the transport's reason |
| `DehumidifierDevice.TableNamesDistinct` | lib/devices/dehumidifier.js:34-152 | the eight registered names are pairwise distinct |
| `DehumidifierDevice.TablePairsDistinct` | lib/devices/dehumidifier.js:34-152 | the eight registered (siid, piid) pairs are pairwise distinct |
| `DehumidifierDevice.TableGuardsAgree` | lib/devices/dehumidifier.js:34-152 | every registered address carries the same `did`, and every mapper tests the pair of its own address |
| `DehumidifierDevice.TableMapperSelectsOwnRecords` | lib/devices/dehumidifier.js:38-150 | each registered mapper returns the value of exactly the records addressed to its own registered pair, and `None` for every other record |
| `DehumidifierDevice.MapperExamples` | lib/devices/dehumidifier.js:38-150 | power accepts a 2/1 record and refuses a 2/3 record; water_tank accepts 7/3 and refuses a `siid` sent as the string "7" |
| `DehumidifierDevice.TableAcceptsAtMostOnce` | lib/devices/dehumidifier.js:34-152 | any record is accepted by at most one of the eight mappers, and by one exactly when its pair is one of the eight wire pairs |
| `DehumidifierDevice.DidIdentifiesDevice` | lib/devices/dehumidifier.js:31 | two adapters with different integer ids never share a `did` |
| `DehumidifierDevice.WritesTargetReadAddresses` | lib/devices/dehumidifier.js:155-197 | power, mode, led, child_lock and buzzer are each written to the address registered under that name, `did` included |
| `DehumidifierDevice.WrittenValues` | lib/devices/dehumidifier.js:155-197 | the four switch commands write a boolean for every input; mode writes its input unchanged |

## Left out

- The transport. `this.call('set_properties', …)` is a function parameter
  from the call payload to a reply, resolved or rejected. Network I/O, timing
  and the promise machinery are not modelled.
- `this.handle.api.id` is the constant `apiId`, fixed at construction. The
  source reads it again in every command. The model assumes it does not change
  while the adapter exists.
- `super(options)` and the base class `../iotDevice` are not part of this
  model. The table is assumed to be empty before the eight registrations.
  `defineProperty` is modelled as appending to a sequence. How the base class
  stores definitions and hands records to mappers is not modelled. The model
  makes no claim about batch dispatch, last-write-wins or idempotence.
- The mixin composition at lines 18-24 is method-resolution machinery from
  abstract-things, which is not visible. It is not modelled.
- A mapper handed `null` or `undefined` instead of a record would throw when
  destructuring. Records are always objects in this model.
- Numbers are integers: an integer-valued number such as `2` (or `2.0`, the
  same JavaScript number) is `Int(2)`. Non-integer numbers such as `2.5`, NaN
  and `-0` are not modelled. Objects and arrays are not modelled as values
  either.
- ToJsString: integers are always printed in plain decimal. JavaScript prints a
  number of magnitude 10^21 or more in exponent form (`1e+21`), and integers
  beyond 2^53 are not exact JavaScript numbers. The model covers neither, so
  its `did` matches JavaScript's only for ids below 2^53 in magnitude.
- NumberToString: the same limit as ToJsString applies.
- The static `type` getter at lines 25-27 returns a constant string and is not
  modelled.
