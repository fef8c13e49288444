/** The typed options of miflora/context/context.go. A Go context is a
    chain of key/value bindings; each option has a setter that adds a
    binding under its own key and a getter that returns the bound value if
    it has the expected type, and a fixed default otherwise. */
module Context {

  import opened Wrappers

  /** Go's int64 (time.Duration is an int64 of nanoseconds). */
  type int64 = x: int | -0x8000_0000_0000_0000 <= x < 0x8000_0000_0000_0000

  /** The package's five unexported keys, and keys of other packages, which
      never compare equal to them. */
  datatype Key = ScanTimeout | ScanPassive | ExpectedSensors | SensorNames | ResultChannel | Foreign(id: nat)

  /** A value stored in a context, by dynamic type. A channel is its identity
      or None for a nil channel. */
  datatype Value =
    | Nil
    | Duration(nanos: int64)
    | Bool(b: bool)
    | Int64(n: int64)
    | Strings(names: seq<string>)
    | ResultChan(channel: Option<nat>)
    | Opaque(tag: nat)

  /** A nil context, the empty background context, or a binding over a
      parent. */
  datatype Context = NilContext | Background | WithValue(parent: Context, key: Key, value: Value)

  /** ctx.Value(key): the innermost binding of the key, or nil. A value
      found was bound to the key somewhere in the chain. */
  function Lookup(ctx: Context, key: Key): (r: Value)
    ensures r != Nil ==> Bound(ctx, key, r)
  {
    match ctx
    case NilContext => Nil
    case Background => Nil
    case WithValue(parent, k, v) => if k == key then v else Lookup(parent, key)
  }

  /** context.WithValue panics on a nil parent. */
  function Set(ctx: Context, key: Key, value: Value): (c: Context)
    requires ctx != NilContext
    ensures c != NilContext && Lookup(c, key) == value
    ensures forall k :: k != key ==> Lookup(c, k) == Lookup(ctx, k)
  {
    WithValue(ctx, key, value)
  }

  const DefaultScanTimeout: int64 := 5_000_000_000

  /** Stores the scan timeout, in nanoseconds under its own key. */
  function ContextWithScanTimeout(ctx: Context, t: int64): (c: Context)
    requires ctx != NilContext
    ensures c != NilContext && Lookup(c, ScanTimeout) == Duration(t)
    ensures forall k :: k != ScanTimeout ==> Lookup(c, k) == Lookup(ctx, k)
  {
    Set(ctx, ScanTimeout, Duration(t))
  }

  /** Reads the scan timeout, in nanoseconds: the bound value when it has the right type, the default
      for a nil context, a missing key or a value of another type. */
  function ScanTimeoutFromContext(ctx: Context): (r: int64)
    ensures ctx != NilContext && Lookup(ctx, ScanTimeout).Duration? ==> Duration(r) == Lookup(ctx, ScanTimeout)
    ensures ctx == NilContext || !Lookup(ctx, ScanTimeout).Duration? ==> r == DefaultScanTimeout
    ensures r != DefaultScanTimeout ==> Bound(ctx, ScanTimeout, Duration(r))
  {
    if ctx != NilContext && Lookup(ctx, ScanTimeout).Duration? then Lookup(ctx, ScanTimeout).nanos
    else DefaultScanTimeout
  }

  /** Stores whether the scan is passive under its own key. */
  function ContextWithScanPassive(ctx: Context, v: bool): (c: Context)
    requires ctx != NilContext
    ensures c != NilContext && Lookup(c, ScanPassive) == Bool(v)
    ensures forall k :: k != ScanPassive ==> Lookup(c, k) == Lookup(ctx, k)
  {
    Set(ctx, ScanPassive, Bool(v))
  }

  /** Reads whether the scan is passive: the bound value when it has the right type, the default
      for a nil context, a missing key or a value of another type. */
  function ScanPassiveFromContext(ctx: Context): (r: bool)
    ensures ctx != NilContext && Lookup(ctx, ScanPassive).Bool? ==> Bool(r) == Lookup(ctx, ScanPassive)
    ensures ctx == NilContext || !Lookup(ctx, ScanPassive).Bool? ==> r == false
    ensures r != false ==> Bound(ctx, ScanPassive, Bool(r))
  {
    if ctx != NilContext && Lookup(ctx, ScanPassive).Bool? then Lookup(ctx, ScanPassive).b
    else false
  }

  /** Stores how many sensors the scan expects under its own key. */
  function ContextWithExpectedSensors(ctx: Context, n: int64): (c: Context)
    requires ctx != NilContext
    ensures c != NilContext && Lookup(c, ExpectedSensors) == Int64(n)
    ensures forall k :: k != ExpectedSensors ==> Lookup(c, k) == Lookup(ctx, k)
  {
    Set(ctx, ExpectedSensors, Int64(n))
  }

  /** Reads how many sensors the scan expects: the bound value when it has the right type, the default
      for a nil context, a missing key or a value of another type. */
  function ExpectedSensorsFromContext(ctx: Context): (r: int64)
    ensures ctx != NilContext && Lookup(ctx, ExpectedSensors).Int64? ==> Int64(r) == Lookup(ctx, ExpectedSensors)
    ensures ctx == NilContext || !Lookup(ctx, ExpectedSensors).Int64? ==> r == 0
    ensures r != 0 ==> Bound(ctx, ExpectedSensors, Int64(r))
  {
    if ctx != NilContext && Lookup(ctx, ExpectedSensors).Int64? then Lookup(ctx, ExpectedSensors).n
    else 0
  }

  /** Stores the sensor names under its own key. */
  function ContextWithSensorNames(ctx: Context, names: seq<string>): (c: Context)
    requires ctx != NilContext
    ensures c != NilContext && Lookup(c, SensorNames) == Strings(names)
    ensures forall k :: k != SensorNames ==> Lookup(c, k) == Lookup(ctx, k)
  {
    Set(ctx, SensorNames, Strings(names))
  }

  /** Reads the sensor names: the bound value when it has the right type, the default
      for a nil context, a missing key or a value of another type. */
  function SensorsNamesFromContext(ctx: Context): (r: seq<string>)
    ensures ctx != NilContext && Lookup(ctx, SensorNames).Strings? ==> Strings(r) == Lookup(ctx, SensorNames)
    ensures ctx == NilContext || !Lookup(ctx, SensorNames).Strings? ==> r == []
    ensures r != [] ==> Bound(ctx, SensorNames, Strings(r))
  {
    if ctx != NilContext && Lookup(ctx, SensorNames).Strings? then Lookup(ctx, SensorNames).names
    else []
  }

  /** Stores the result channel under its own key. */
  function ContextWithResultChannel(ctx: Context, ch: Option<nat>): (c: Context)
    requires ctx != NilContext
    ensures c != NilContext && Lookup(c, ResultChannel) == ResultChan(ch)
    ensures forall k :: k != ResultChannel ==> Lookup(c, k) == Lookup(ctx, k)
  {
    Set(ctx, ResultChannel, ResultChan(ch))
  }

  /** Reads the result channel: the bound value when it has the right type, the default
      for a nil context, a missing key or a value of another type. */
  function ResultChannelFromContext(ctx: Context): (r: Option<nat>)
    ensures ctx != NilContext && Lookup(ctx, ResultChannel).ResultChan? ==> ResultChan(r) == Lookup(ctx, ResultChannel)
    ensures ctx == NilContext || !Lookup(ctx, ResultChannel).ResultChan? ==> r == None
    ensures r != None ==> Bound(ctx, ResultChannel, ResultChan(r))
  {
    if ctx != NilContext && Lookup(ctx, ResultChannel).ResultChan? then Lookup(ctx, ResultChannel).channel
    else None
  }

  /** Each getter returns what its setter stored last. */
  lemma GetAfterSet(ctx: Context, t: int64, passive: bool, n: int64, names: seq<string>, c: Option<nat>)
    requires ctx != NilContext
    ensures ScanTimeoutFromContext(ContextWithScanTimeout(ctx, t)) == t
    ensures ScanPassiveFromContext(ContextWithScanPassive(ctx, passive)) == passive
    ensures ExpectedSensorsFromContext(ContextWithExpectedSensors(ctx, n)) == n
    ensures SensorsNamesFromContext(ContextWithSensorNames(ctx, names)) == names
    ensures ResultChannelFromContext(ContextWithResultChannel(ctx, c)) == c
  {
  }

  /** A later setting of the same option hides an earlier one. */
  lemma LastSetWins(ctx: Context, t1: int64, t2: int64)
    requires ctx != NilContext
    ensures ScanTimeoutFromContext(ContextWithScanTimeout(ContextWithScanTimeout(ctx, t1), t2)) == t2
  {
  }

  /** A binding under any other key, including another package's, changes
      no getter but that key's own. */
  lemma OtherKeysIndependent(ctx: Context, key: Key, value: Value)
    requires ctx != NilContext
    ensures var c := Set(ctx, key, value);
      && (key != ScanTimeout ==> ScanTimeoutFromContext(c) == ScanTimeoutFromContext(ctx))
      && (key != ScanPassive ==> ScanPassiveFromContext(c) == ScanPassiveFromContext(ctx))
      && (key != ExpectedSensors ==> ExpectedSensorsFromContext(c) == ExpectedSensorsFromContext(ctx))
      && (key != SensorNames ==> SensorsNamesFromContext(c) == SensorsNamesFromContext(ctx))
      && (key != ResultChannel ==> ResultChannelFromContext(c) == ResultChannelFromContext(ctx))
  {
  }

  /** A nil context and the background context give every default. */
  lemma Defaults(ctx: Context)
    requires ctx == NilContext || ctx == Background
    ensures ScanTimeoutFromContext(ctx) == 5_000_000_000
    ensures !ScanPassiveFromContext(ctx)
    ensures ExpectedSensorsFromContext(ctx) == 0
    ensures SensorsNamesFromContext(ctx) == []
    ensures ResultChannelFromContext(ctx) == None
  {
  }

  /** A value of the wrong type under an option's key, here one stored by a
      caller holding the key, gives that option's default as if it were
      missing. */
  lemma WrongTypeGivesDefault(ctx: Context, v: Value)
    requires ctx != NilContext
    ensures !v.Duration? ==> ScanTimeoutFromContext(Set(ctx, ScanTimeout, v)) == DefaultScanTimeout
    ensures !v.Bool? ==> !ScanPassiveFromContext(Set(ctx, ScanPassive, v))
    ensures !v.Int64? ==> ExpectedSensorsFromContext(Set(ctx, ExpectedSensors, v)) == 0
    ensures !v.Strings? ==> SensorsNamesFromContext(Set(ctx, SensorNames, v)) == []
    ensures !v.ResultChan? ==> ResultChannelFromContext(Set(ctx, ResultChannel, v)) == None
  {
  }

  /** Some binding in the chain pairs the key with the value. */
  predicate Bound(ctx: Context, key: Key, value: Value) {
    match ctx
    case NilContext => false
    case Background => false
    case WithValue(parent, k, v) => (k == key && v == value) || Bound(parent, key, value)
  }
}
