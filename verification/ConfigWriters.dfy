/**
  An outstation's point configuration, written in place into the native arrays: by the .NET
  binding in layers over the whole array, by the Java binding one whole record at a time.
 */
module ConfigWriters {
  import opened Words
  import opened PointIndex

  datatype Kind =
    | Binary | DoubleBinary | Counter | FrozenCounter | Analog
    | BinaryOutputStatus | AnalogOutputStatus | TimeAndInterval | OctetString

  /** How much of a native configuration record the .NET binding fills in. */
  datatype Layer = IndexOnly | Static | Event | Deadband

  function LayerOf(kind: Kind): Layer {
    match kind
    case Binary | DoubleBinary | BinaryOutputStatus => Event
    case Analog | Counter | FrozenCounter | AnalogOutputStatus => Deadband
    case TimeAndInterval => Static
    case OctetString => IndexOnly
  }

  /** A native record, with the fields of the deepest layer; enumerations are their codes. */
  datatype PointConfig =
    PointConfig(vIndex: Uint16, svariation: Byte, clazz: Byte, evariation: Byte, deadband: real)

  /** A .NET point record. */
  datatype Record =
    Record(index: Uint16, staticVariation: Byte, clazz: Byte, eventVariation: Byte, deadband: real)

  const CLASS0: Byte := 1
  const CLASS1: Byte := 2
  const CLASS2: Byte := 4
  const CLASS3: Byte := 8

  predicate IsPointClass(code: Byte) {
    code in {CLASS0, CLASS1, CLASS2, CLASS3}
  }

  /** `Conversions::Convert(PointClass)`. */
  function ConvertClass(code: Byte): Byte {
    if code in {CLASS1, CLASS2, CLASS3} then code else CLASS0
  }

  /** A record as its constructor leaves it: class 1 and the type's default variations. */
  function Default(kind: Kind): PointConfig {
    PointConfig(0, if kind == Binary then 1 else 0, CLASS1, 0, 0.0)
  }

  /** `slot` once `r` is written over it as deep as `layer`. */
  function Filled(layer: Layer, slot: PointConfig, r: Record): PointConfig {
    match layer
    case IndexOnly => PointConfig(r.index, slot.svariation, slot.clazz, slot.evariation, slot.deadband)
    case Static => PointConfig(r.index, r.staticVariation, slot.clazz, slot.evariation, slot.deadband)
    case Event => PointConfig(r.index, r.staticVariation, ConvertClass(r.clazz), r.eventVariation, slot.deadband)
    case Deadband => PointConfig(r.index, r.staticVariation, ConvertClass(r.clazz), r.eventVariation, r.deadband)
  }

  /** The first |rs| slots filled from the records of the same position, the others as they were. */
  function Overwritten(layer: Layer, slots: seq<PointConfig>, rs: seq<Record>): seq<PointConfig>
    requires |rs| <= |slots|
  {
    seq(|slots|, i requires 0 <= i < |slots| => if i < |rs| then Filled(layer, slots[i], rs[i]) else slots[i])
  }

  // ------------------------------ the layered loops ------------------------------

  method ConvertIndexConfig(source: seq<Record>, target: array<PointConfig>)
    requires |source| <= target.Length
    modifies target
    ensures target[..] == Overwritten(IndexOnly, old(target[..]), source)
  {
    for i := 0 to |source|
      invariant target[..] == Overwritten(IndexOnly, old(target[..]), source[..i])
    {
      target[i] := target[i].(vIndex := source[i].index);
    }
    assert source[..|source|] == source;
  }

  method ConvertStaticConfig(source: seq<Record>, target: array<PointConfig>)
    requires |source| <= target.Length
    modifies target
    ensures target[..] == Overwritten(Static, old(target[..]), source)
  {
    ConvertIndexConfig(source, target);
    ghost var before := target[..];
    for i := 0 to |source|
      invariant forall k :: i <= k < target.Length ==> target[k] == before[k]
      invariant forall k :: 0 <= k < i ==> target[k] == before[k].(svariation := source[k].staticVariation)
    {
      target[i] := target[i].(svariation := source[i].staticVariation);
    }
  }

  method ConvertEventConfig(source: seq<Record>, target: array<PointConfig>)
    requires |source| <= target.Length
    modifies target
    ensures target[..] == Overwritten(Event, old(target[..]), source)
  {
    ConvertStaticConfig(source, target);
    ghost var before := target[..];
    for i := 0 to |source|
      invariant forall k :: i <= k < target.Length ==> target[k] == before[k]
      invariant forall k :: 0 <= k < i ==>
        target[k] == before[k].(clazz := ConvertClass(source[k].clazz), evariation := source[k].eventVariation)
    {
      target[i] := target[i].(clazz := ConvertClass(source[i].clazz));
      target[i] := target[i].(evariation := source[i].eventVariation);
    }
  }

  method ConvertDeadbandConfig(source: seq<Record>, target: array<PointConfig>)
    requires |source| <= target.Length
    modifies target
    ensures target[..] == Overwritten(Deadband, old(target[..]), source)
  {
    ConvertEventConfig(source, target);
    ghost var before := target[..];
    for i := 0 to |source|
      invariant forall k :: i <= k < target.Length ==> target[k] == before[k]
      invariant forall k :: 0 <= k < i ==> target[k] == before[k].(deadband := source[k].deadband)
    {
      target[i] := target[i].(deadband := source[i].deadband);
    }
  }

  // ------------------------------ the database ------------------------------

  /** One thing for each measurement type: sizes, lists of records, native arrays. */
  datatype PerKind<T> = PerKind(
    binary: T,
    doubleBinary: T,
    analog: T,
    counter: T,
    frozenCounter: T,
    boStatus: T,
    aoStatus: T,
    timeAndInterval: T,
    octetString: T)
  {
    function At(kind: Kind): T {
      match kind
      case Binary => binary
      case DoubleBinary => doubleBinary
      case Analog => analog
      case Counter => counter
      case FrozenCounter => frozenCounter
      case BinaryOutputStatus => boStatus
      case AnalogOutputStatus => aoStatus
      case TimeAndInterval => timeAndInterval
      case OctetString => octetString
    }
  }

  type DatabaseSizes = PerKind<Uint16>
  type DatabaseTemplate = PerKind<seq<Record>>

  /** The slots a database starts with. */
  function Initial(kind: Kind, size: Uint16): seq<PointConfig> {
    seq(size, i requires 0 <= i < size => Default(kind).(vIndex := i))
  }

  /** A zero-initialised native array of which `InitIndices` then numbers the slots. */
  method NewPoints(kind: Kind, size: Uint16) returns (values: array<PointConfig>)
    ensures fresh(values) && values[..] == Initial(kind, size)
  {
    values := new PointConfig[size](_ => Default(kind));
    for i := 0 to size
      invariant forall k :: 0 <= k < i ==> values[k] == Default(kind).(vIndex := k)
      invariant forall k :: i <= k < size ==> values[k] == Default(kind)
    {
      values[i] := values[i].(vIndex := i);
    }
  }

  class DatabaseConfig {
    const binary: array<PointConfig>
    const doubleBinary: array<PointConfig>
    const analog: array<PointConfig>
    const counter: array<PointConfig>
    const frozenCounter: array<PointConfig>
    const boStatus: array<PointConfig>
    const aoStatus: array<PointConfig>
    const timeAndInterval: array<PointConfig>
    const octetString: array<PointConfig>

    ghost predicate Separate() {
      && binary !in {doubleBinary, analog, counter, frozenCounter, boStatus, aoStatus, timeAndInterval, octetString}
      && doubleBinary !in {analog, counter, frozenCounter, boStatus, aoStatus, timeAndInterval, octetString}
      && analog !in {counter, frozenCounter, boStatus, aoStatus, timeAndInterval, octetString}
      && counter !in {frozenCounter, boStatus, aoStatus, timeAndInterval, octetString}
      && frozenCounter !in {boStatus, aoStatus, timeAndInterval, octetString}
      && boStatus !in {aoStatus, timeAndInterval, octetString}
      && aoStatus !in {timeAndInterval, octetString}
      && timeAndInterval !in {octetString}
    }

    ghost function Contents(): PerKind<seq<PointConfig>>
      reads binary, doubleBinary, analog, counter, frozenCounter, boStatus, aoStatus, timeAndInterval, octetString
    {
      PerKind(binary[..], doubleBinary[..], analog[..], counter[..], frozenCounter[..],
        boStatus[..], aoStatus[..], timeAndInterval[..], octetString[..])
    }

    constructor (sizes: DatabaseSizes)
      ensures Separate()
      ensures fresh(binary)
      ensures fresh(doubleBinary)
      ensures fresh(analog)
      ensures fresh(counter)
      ensures fresh(frozenCounter)
      ensures fresh(boStatus)
      ensures fresh(aoStatus)
      ensures fresh(timeAndInterval)
      ensures fresh(octetString)
      ensures forall kind: Kind :: Contents().At(kind) == Initial(kind, sizes.At(kind))
    {
      var binary' := NewPoints(Binary, sizes.binary);
      var doubleBinary' := NewPoints(DoubleBinary, sizes.doubleBinary);
      var analog' := NewPoints(Analog, sizes.analog);
      var counter' := NewPoints(Counter, sizes.counter);
      var frozenCounter' := NewPoints(FrozenCounter, sizes.frozenCounter);
      var boStatus' := NewPoints(BinaryOutputStatus, sizes.boStatus);
      var aoStatus' := NewPoints(AnalogOutputStatus, sizes.aoStatus);
      var timeAndInterval' := NewPoints(TimeAndInterval, sizes.timeAndInterval);
      var octetString' := NewPoints(OctetString, sizes.octetString);
      binary := binary';
      doubleBinary := doubleBinary';
      analog := analog';
      counter := counter';
      frozenCounter := frozenCounter';
      boStatus := boStatus';
      aoStatus := aoStatus';
      timeAndInterval := timeAndInterval';
      octetString := octetString';
    }
  }

  method ApplyConfig(lhs: DatabaseTemplate, rhs: DatabaseConfig)
    requires rhs.Separate()
    requires forall kind: Kind :: |lhs.At(kind)| <= |rhs.Contents().At(kind)|
    modifies rhs.binary, rhs.doubleBinary, rhs.analog, rhs.counter, rhs.frozenCounter
    modifies rhs.boStatus, rhs.aoStatus, rhs.timeAndInterval, rhs.octetString
    ensures forall kind: Kind ::
      rhs.Contents().At(kind) == Overwritten(LayerOf(kind), old(rhs.Contents().At(kind)), lhs.At(kind))
  {
    ghost var sizes := rhs.Contents();
    assert |lhs.At(Binary)| <= |sizes.At(Binary)|;
    assert |lhs.At(DoubleBinary)| <= |sizes.At(DoubleBinary)|;
    assert |lhs.At(Analog)| <= |sizes.At(Analog)|;
    assert |lhs.At(Counter)| <= |sizes.At(Counter)|;
    assert |lhs.At(FrozenCounter)| <= |sizes.At(FrozenCounter)|;
    assert |lhs.At(BinaryOutputStatus)| <= |sizes.At(BinaryOutputStatus)|;
    assert |lhs.At(AnalogOutputStatus)| <= |sizes.At(AnalogOutputStatus)|;
    assert |lhs.At(TimeAndInterval)| <= |sizes.At(TimeAndInterval)|;
    assert |lhs.At(OctetString)| <= |sizes.At(OctetString)|;
    ConvertEventConfig(lhs.binary, rhs.binary);
    ConvertEventConfig(lhs.doubleBinary, rhs.doubleBinary);
    ConvertDeadbandConfig(lhs.analog, rhs.analog);
    ConvertDeadbandConfig(lhs.counter, rhs.counter);
    ConvertDeadbandConfig(lhs.frozenCounter, rhs.frozenCounter);
    ConvertEventConfig(lhs.boStatus, rhs.boStatus);
    ConvertDeadbandConfig(lhs.aoStatus, rhs.aoStatus);
    ConvertStaticConfig(lhs.timeAndInterval, rhs.timeAndInterval);
    ConvertIndexConfig(lhs.octetString, rhs.octetString);
  }

  // ------------------------------ the .NET binding ------------------------------

  /** The native records of one list: each record by itself, on a default-constructed slot. */
  function Configured(kind: Kind, rs: seq<Record>): seq<PointConfig> {
    seq(|rs|, i requires 0 <= i < |rs| => Filled(LayerOf(kind), Default(kind), rs[i]))
  }

  function IndicesOf(rs: seq<Record>): Indices {
    seq(|rs|, i requires 0 <= i < |rs| => rs[i].index)
  }

  /** The order in which the template scans its lists. */
  const SCAN_ORDER: seq<Kind> :=
    [Binary, DoubleBinary, Counter, FrozenCounter, Analog,
     BinaryOutputStatus, AnalogOutputStatus, TimeAndInterval, OctetString]

  function Place(kind: Kind): (n: nat)
    ensures n < 9 && SCAN_ORDER[n] == kind
  {
    match kind
    case Binary => 0
    case DoubleBinary => 1
    case Counter => 2
    case FrozenCounter => 3
    case Analog => 4
    case BinaryOutputStatus => 5
    case AnalogOutputStatus => 6
    case TimeAndInterval => 7
    case OctetString => 8
  }

  function IndexLists(t: DatabaseTemplate): seq<Indices> {
    seq(9, n requires 0 <= n < 9 => IndicesOf(t.At(SCAN_ORDER[n])))
  }

  function SizesOf(t: DatabaseTemplate): (sizes: DatabaseSizes)
    ensures forall kind: Kind :: sizes.At(kind) == NarrowToUint16(|t.At(kind)|)
  {
    PerKind(
      NarrowToUint16(|t.binary|), NarrowToUint16(|t.doubleBinary|), NarrowToUint16(|t.analog|),
      NarrowToUint16(|t.counter|), NarrowToUint16(|t.frozenCounter|), NarrowToUint16(|t.boStatus|),
      NarrowToUint16(|t.aoStatus|), NarrowToUint16(|t.timeAndInterval|), NarrowToUint16(|t.octetString|))
  }

  /**
    Lists of up to 65535 points.  A longer one gets fewer slots than records, and then the
    first record without a slot fails the assertion of the array.
   */
  ghost predicate Sized(t: DatabaseTemplate) {
    forall kind: Kind :: |t.At(kind)| <= 0xFFFF
  }

  /** The array accesses of `ApplyConfig` are all in bounds. */
  predicate HasSlots(t: DatabaseTemplate, sizes: DatabaseSizes) {
    forall kind: Kind :: |t.At(kind)| <= sizes.At(kind)
  }

  lemma SizedIff(t: DatabaseTemplate)
    ensures Sized(t) <==> HasSlots(t, SizesOf(t))
  {
    assert forall kind: Kind :: |t.At(kind)| <= 0xFFFF <==> |t.At(kind)| <= SizesOf(t).At(kind);
  }

  /** The native configuration and the index mode or exception, unless an array assertion fails first. */
  datatype Conversion = Converted(cfg: DatabaseConfig, indexMode: ModeResult) | AssertionFailed

  method ConvertConfig(t: DatabaseTemplate) returns (r: Conversion)
    ensures r.Converted? <==> Sized(t)
    ensures r.Converted? ==>
      && fresh(r.cfg) && r.cfg.Separate()
      && (forall kind: Kind :: r.cfg.Contents().At(kind) == Configured(kind, t.At(kind)))
      && Decides(IndexLists(t), r.indexMode)
  {
    SizedIff(t);
    if !HasSlots(t, SizesOf(t)) {
      return AssertionFailed;
    }
    var cfg := new DatabaseConfig(SizesOf(t));
    AllAfresh(t);
    ApplyConfig(t, cfg);
    var indexMode := GetIndexMode(IndexLists(t));
    r := Converted(cfg, indexMode);
  }

  /** Nothing of the initial numbering survives a list as long as the array. */
  lemma AllAfresh(t: DatabaseTemplate)
    requires Sized(t)
    ensures forall kind: Kind :: SizesOf(t).At(kind) == |t.At(kind)|
    ensures forall kind: Kind ::
      Overwritten(LayerOf(kind), Initial(kind, |t.At(kind)|), t.At(kind)) == Configured(kind, t.At(kind))
  {
    forall kind: Kind ensures SizesOf(t).At(kind) == |t.At(kind)| {
      assert |t.At(kind)| <= 0xFFFF;
    }
  }

  /** The virtual indices the database gets. */
  function View(slots: seq<PointConfig>): Indices {
    seq(|slots|, i requires 0 <= i < |slots| => slots[i].vIndex)
  }

  /**
    From an accepted template to the running database: all updates find their points exactly
    when no list out of order hides behind one that has gaps.
   */
  lemma TemplateServesIff(t: DatabaseTemplate)
    requires Sized(t)
    requires Accepted(IndexLists(t))
    ensures
      var lists := IndexLists(t);
      (forall kind: Kind :: Serves(ModeOf(lists), View(Configured(kind, t.At(kind)))))
      <==> (forall n :: FirstOdd(lists) < n < |lists| ==> Increasing(lists[n]))
  {
    var lists := IndexLists(t);
    forall kind: Kind ensures View(Configured(kind, t.At(kind))) == lists[Place(kind)] {
    }
    forall n | 0 <= n < |lists| ensures lists[n] == View(Configured(SCAN_ORDER[n], t.At(SCAN_ORDER[n]))) {
    }
    AcceptedServesIff(lists);
  }

  function AtIndex(index: Uint16): Record {
    Record(index, 0, CLASS1, 0, 0.0)
  }

  /** A template that is accepted although its second list is out of order; its point 0 is lost. */
  lemma OutOfOrderSlipsThrough()
    ensures
      var t := PerKind([AtIndex(1)], [AtIndex(5), AtIndex(0)], [], [], [], [], [], [], []);
      var mode := ModeOf(IndexLists(t));
      && Accepted(IndexLists(t)) && mode == Discontiguous
      && View(Configured(DoubleBinary, t.doubleBinary)) == [5, 0]
      && Updated(mode, View(Configured(DoubleBinary, t.doubleBinary)), 0) == None
  {
    var t := PerKind([AtIndex(1)], [AtIndex(5), AtIndex(0)], [], [], [], [], [], [], []);
    var lists := IndexLists(t);
    assert t.At(SCAN_ORDER[0]) == [AtIndex(1)];
    assert lists[0] == [1] && lists[0][0] != 0;
    assert FirstOdd(lists) == 0;
    var view := View(Configured(DoubleBinary, t.doubleBinary));
    assert view == [5, 0];
    assert Closest(view, 0) == Search(view, 0, 0, 1, 0) == Search(view, 0, 0, -1, 0) == Result(false, 0);
  }

  /**
    An increasing list has a slot for each record unless it uses all 65536 indices; then its
    size narrows to none.
   */
  lemma SlotsForAllIff(ix: Indices)
    requires Increasing(ix)
    ensures NarrowToUint16(|ix|) == |ix| <==> !(|ix| == 0x1_0000 && Identity(ix))
  {
    if |ix| > 0xFFFF {
      Spread(ix, 0, |ix| - 1);
      forall i | 0 <= i < |ix| ensures ix[i] == i {
        Spread(ix, 0, i);
        Spread(ix, i, |ix| - 1);
      }
    }
  }

  // ------------------------------ the Java binding ------------------------------

  datatype JavaRecord =
    JavaRecord(vIndex: int, staticVariation: Byte, clazz: Byte, eventVariation: Byte, deadband: real)

  /** The seven measurement types the Java binding configures. */
  predicate InJava(kind: Kind) {
    kind != TimeAndInterval && kind != OctetString
  }

  /** Which types go through `ConvertDeadbandType`; analog output statuses do not. */
  predicate JavaDeadband(kind: Kind) {
    kind in {Analog, Counter, FrozenCounter}
  }

  /** `ConvertEventType` and `ConvertDeadbandType`. */
  function FromJava(kind: Kind, r: JavaRecord): PointConfig {
    var cfg := Default(kind);
    var event := cfg.(
      vIndex := r.vIndex % 0x1_0000,
      clazz := r.clazz,
      svariation := r.staticVariation,
      evariation := r.eventVariation);
    if JavaDeadband(kind) then event.(deadband := r.deadband) else event
  }

  function JavaConfigured(kind: Kind, rs: seq<JavaRecord>): seq<PointConfig> {
    seq(|rs|, i requires 0 <= i < |rs| => FromJava(kind, rs[i]))
  }

  /** One indexed iteration of `ConvertDatabase`. */
  method ConvertPoints(kind: Kind, points: seq<JavaRecord>, target: array<PointConfig>)
    requires |points| <= target.Length
    modifies target
    ensures target[..] == JavaConfigured(kind, points) + old(target[|points|..])
  {
    for index := 0 to |points|
      invariant forall k :: 0 <= k < index ==> target[k] == FromJava(kind, points[k])
      invariant target[index..] == old(target[index..])
    {
      ghost var rest := target[index..];
      target[index] := FromJava(kind, points[index]);
      assert target[index + 1..] == rest[1..];
    }
  }

  function AsJava(rs: seq<Record>): seq<JavaRecord> {
    seq(|rs|, i requires 0 <= i < |rs| =>
      JavaRecord(rs[i].index, rs[i].staticVariation, rs[i].clazz, rs[i].eventVariation, rs[i].deadband))
  }

  /** `Database::ConvertToEventClass`: the event class of a point, if it reports events at all. */
  function EventClass(clazz: Byte): Option<int> {
    if clazz == CLASS1 then Some(1)
    else if clazz == CLASS2 then Some(2)
    else if clazz == CLASS3 then Some(3)
    else None
  }

  /** What the two bindings have to agree on a record. */
  predicate SameInBoth(kind: Kind, r: Record) {
    IsPointClass(r.clazz) && (kind == AnalogOutputStatus ==> r.deadband == 0.0)
  }

  /**
    The layered loops and the whole-record writes leave the same array exactly when every
    class code is a point class and no analog output status has a deadband, which the Java
    binding drops; and the event classes agree whatever the codes.
   */
  lemma BindingsAgreeIff(kind: Kind, rs: seq<Record>)
    requires InJava(kind)
    ensures Configured(kind, rs) == JavaConfigured(kind, AsJava(rs))
       <==> forall i :: 0 <= i < |rs| ==> SameInBoth(kind, rs[i])
    ensures forall i :: 0 <= i < |rs| ==>
      EventClass(Configured(kind, rs)[i].clazz) == EventClass(JavaConfigured(kind, AsJava(rs))[i].clazz)
  {
    var net, java := Configured(kind, rs), JavaConfigured(kind, AsJava(rs));
    forall i | 0 <= i < |rs| ensures net[i] == java[i] <==> SameInBoth(kind, rs[i]) {
    }
  }

  /** The types whose records the .NET binding copies as deep as events, and as deep as deadbands. */
  predicate HasEvents(kind: Kind) {
    kind != TimeAndInterval && kind != OctetString
  }

  predicate HasDeadband(kind: Kind) {
    kind in {Analog, Counter, FrozenCounter, AnalogOutputStatus}
  }

  /**
    Field by field, what of a .NET record reaches its native point: always the index, and each
    other field exactly when its type has it or the record holds the default anyway.
   */
  lemma FieldsAppliedIff(kind: Kind, rs: seq<Record>, i: nat)
    requires i < |rs|
    ensures
      var slot, r := Configured(kind, rs)[i], rs[i];
      && slot.vIndex == r.index
      && (slot.svariation == r.staticVariation
          <==> kind != OctetString || r.staticVariation == 0)
      && (slot.evariation == r.eventVariation <==> HasEvents(kind) || r.eventVariation == 0)
      && (slot.deadband == r.deadband <==> HasDeadband(kind) || r.deadband == 0.0)
      && (HasEvents(kind) ==> slot.clazz == if r.clazz in {1, 2, 4, 8} then r.clazz else 1)
      && (!HasEvents(kind) ==> slot.clazz == 2)
  {
    assert Configured(kind, rs)[i] == Filled(LayerOf(kind), Default(kind), rs[i]);
  }

  /** The class codes in numbers: 2, 4 and 8 report events of class 1, 2 and 3, all others none. */
  lemma EventClassCodes(code: Byte)
    ensures IsPointClass(code) <==> code in {1, 2, 4, 8}
    ensures EventClass(code)
         == if code == 2 then Some(1) else if code == 4 then Some(2) else if code == 8 then Some(3) else None
  {
  }

  /** The template's lists, in the order of the scan. */
  lemma ScannedInOrder(t: DatabaseTemplate)
    ensures IndexLists(t)
         == [IndicesOf(t.binary), IndicesOf(t.doubleBinary), IndicesOf(t.counter), IndicesOf(t.frozenCounter),
             IndicesOf(t.analog), IndicesOf(t.boStatus), IndicesOf(t.aoStatus), IndicesOf(t.timeAndInterval),
             IndicesOf(t.octetString)]
  {
  }

  /**
    The event class asked for in a .NET record reaches the native point exactly when the
    point is not an octet string or the class is the default one: the writer of octet strings
    copies the index only, although their records carry a class.
   */
  lemma ClassAppliedIff(kind: Kind, rs: seq<Record>, i: nat)
    requires i < |rs| && kind != TimeAndInterval
    ensures EventClass(Configured(kind, rs)[i].clazz) == EventClass(rs[i].clazz)
       <==> kind != OctetString || rs[i].clazz == CLASS1
  {
    assert Configured(kind, rs)[i] == Filled(LayerOf(kind), Default(kind), rs[i]);
  }
}
