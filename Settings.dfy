/** The plugin's parameter store.  One object holds the device configuration
    and the ten tunable parameters; `setParameter` overwrites the one field a
    parameter selects, after announcing the change to the registered
    property-change listeners.  Values arrive as Java `Double`s and are stored
    unchanged (modelled as reals) except in the three int fields, which keep
    `Double.intValue()` of them.  Announcements follow java.beans: an event is
    fired unless its old value equals its new value, and it reaches every
    registered listener in registration order. */
module Settings {

  /** Settings.ParameterTypes. */
  datatype Parameter =
    | FlowActive | FlowInactive | ValveDisplacement | ValveDisplacementRate | NTraps
    | Trigger | TrapsFilled | PixelSize | MinSize | IsRunning | None

  /** The fields that setParameter can write. */
  datatype Field =
    | IsRunningValue | FlowActiveValue | FlowInactiveValue | ValveOpenValue | ValveClosedValue
    | NTrapsValue | TriggerValue | TrapsFilledValue | PixelSizeValue | MinSizeValue

  /** mmcorej.DeviceType, as far as the plugin tells its kinds apart. */
  datatype DeviceKind = PressurePumpDevice | VolumetricPumpDevice | OtherDevice

  /** The ten parameter fields of a Settings object. */
  datatype Values = Values(
    isRunning: real, flowActiveValue: real, flowInactiveValue: real,
    valveOpenValue: real, valveClosedValue: real, nTrapsValue: int, triggerValue: real,
    trapsFilled: int, pixelSize: real, minSize: int)

  /** The device configuration, which setParameter never writes. */
  datatype Setup = Setup(
    flowController: string, flowType: DeviceKind, valveController: string, valveType: DeviceKind,
    currGroup: string, trapConfig: string, releaseConfig: string,
    overviewX: real, overviewY: real, imageWidth: int, imageHeight: int, imageDepth: int)

  /** What one field holds. */
  datatype Stored = Real(r: real) | Int(i: int)

  /** The old value handed to firePropertyChange: a boxed Double, a boxed
      Integer, or the AtomicInteger object that holds trapsFilled. */
  datatype Boxed = BoxedDouble(d: real) | BoxedInteger(i: int) | Counter(count: int)

  /** A java.beans.PropertyChangeEvent; the new value is always a Double. */
  datatype PropertyChange = PropertyChange(property: string, oldValue: Boxed, newValue: real)

  /** What firePropertyChange does with one call. */
  datatype Notification = Silent | Fired(event: PropertyChange)

  /** One delivered event: the listeners it reached and the parameter values
      they could observe while handling it. */
  datatype Delivery = Delivery(event: PropertyChange, recipients: seq<nat>, observed: Values)

  const MinInt: int := -0x8000_0000
  const MaxInt: int := 0x7fff_ffff

  /** A 32-bit Java int. */
  predicate IsInt32(n: int)
  {
    MinInt <= n <= MaxInt
  }

  /** Truncation toward zero. */
  function Truncate(x: real): (n: int)
    ensures if 0.0 <= x then n as real <= x < n as real + 1.0 else n as real - 1.0 < x <= n as real
    ensures 0.0 <= x ==> 0 <= n
    ensures x <= 0.0 ==> n <= 0
  {
    if x >= 0.0 then x.Floor else -((-x).Floor)
  }

  /** Double.intValue(): truncation toward zero, saturated to the int range. */
  function IntValue(x: real): (n: int)
    ensures IsInt32(n)
  {
    var t := Truncate(x);
    if t < MinInt then MinInt else if t > MaxInt then MaxInt else t
  }

  /** The field each known parameter writes. */
  function Target(p: Parameter): Field
    requires p != None
  {
    match p
    case FlowActive => FlowActiveValue
    case FlowInactive => FlowInactiveValue
    case ValveDisplacement => ValveOpenValue
    case ValveDisplacementRate => ValveClosedValue
    case NTraps => NTrapsValue
    case Trigger => TriggerValue
    case TrapsFilled => TrapsFilledValue
    case PixelSize => PixelSizeValue
    case MinSize => MinSizeValue
    case IsRunning => IsRunningValue
  }

  /** The fields that hold Java ints. */
  predicate IntField(f: Field)
  {
    f == NTrapsValue || f == TrapsFilledValue || f == MinSizeValue
  }

  /** The value held by field f. */
  function Get(v: Values, f: Field): Stored
  {
    match f
    case IsRunningValue => Real(v.isRunning)
    case FlowActiveValue => Real(v.flowActiveValue)
    case FlowInactiveValue => Real(v.flowInactiveValue)
    case ValveOpenValue => Real(v.valveOpenValue)
    case ValveClosedValue => Real(v.valveClosedValue)
    case NTrapsValue => Int(v.nTrapsValue)
    case TriggerValue => Real(v.triggerValue)
    case TrapsFilledValue => Int(v.trapsFilled)
    case PixelSizeValue => Real(v.pixelSize)
    case MinSizeValue => Int(v.minSize)
  }

  /** The parameter values after setParameter(p, x). */
  function Assign(v: Values, p: Parameter, x: real): Values
  {
    match p
    case FlowActive => v.(flowActiveValue := x)
    case FlowInactive => v.(flowInactiveValue := x)
    case ValveDisplacement => v.(valveOpenValue := x)
    case ValveDisplacementRate => v.(valveClosedValue := x)
    case NTraps => v.(nTrapsValue := IntValue(x))
    case Trigger => v.(triggerValue := x)
    case TrapsFilled => v.(trapsFilled := IntValue(x))
    case PixelSize => v.(pixelSize := x)
    case MinSize => v.(minSize := IntValue(x))
    case IsRunning => v.(isRunning := x)
    case None => v
  }

  /** The property name setParameter announces for p. */
  function PropertyName(p: Parameter): string
    requires p != None
  {
    match p
    case FlowActive => "flowActiveValue"
    case FlowInactive => "flowInactiveValue"
    case ValveDisplacement => "valveDisplacementValue"
    case ValveDisplacementRate => "valveDisplacementRateValue"
    case NTraps => "nTrapsValue"
    case Trigger => "triggerValue"
    case TrapsFilled => "trapsFilled"
    case PixelSize => "pixelSize"
    case MinSize => "minSize"
    case IsRunning => "isRunning"
  }

  /** The old value as firePropertyChange receives it. */
  function OldValue(v: Values, p: Parameter): Boxed
    requires p != None
  {
    if p == TrapsFilled then Counter(v.trapsFilled)
    else match Get(v, Target(p))
      case Real(r) => BoxedDouble(r)
      case Int(i) => BoxedInteger(i)
  }

  /** Object.equals between the old value and the new Double: only a Double of
      the same value is equal. */
  predicate EqualsNew(before: Boxed, x: real)
  {
    before.BoxedDouble? && before.d == x
  }

  /** The announcement setParameter(p, x) makes. */
  function Change(v: Values, p: Parameter, x: real): Notification
  {
    if p == None || EqualsNew(OldValue(v, p), x) then Silent
    else Fired(PropertyChange(PropertyName(p), OldValue(v, p), x))
  }

  /** The deliveries setParameter(p, x) makes to the given listeners. */
  function Announced(v: Values, p: Parameter, x: real, listeners: seq<nat>): seq<Delivery>
  {
    match Change(v, p, x)
    case Silent => []
    case Fired(e) => [Delivery(e, listeners, v)]
  }

  /** Removes the first occurrence of l, as PropertyChangeSupport does. */
  function RemoveFirst(s: seq<nat>, l: nat): (r: seq<nat>)
    ensures l !in s ==> r == s
    ensures l in s ==> |r| == |s| - 1 && multiset(r) == multiset(s) - multiset{l}
  {
    if |s| == 0 then []
    else
      assert s == [s[0]] + s[1..];
      if s[0] == l then s[1..] else [s[0]] + RemoveFirst(s[1..], l)
  }

  class Settings {
    var isRunning: real
    var flowController: string
    var flowType: DeviceKind
    var flowActiveValue: real
    var flowInactiveValue: real
    var valveController: string
    var valveType: DeviceKind
    var valveOpenValue: real    // displacement volume for a volumetric pump
    var valveClosedValue: real  // rate for a volumetric pump
    var nTrapsValue: int
    var triggerValue: real
    var trapsFilled: int
    var currGroup: string
    var trapConfig: string
    var releaseConfig: string
    var pixelSize: real
    var overviewX: real
    var overviewY: real
    var imageWidth: int
    var imageHeight: int
    var imageDepth: int
    var minSize: int
    /** The registered listeners, by identity. */
    var listeners: seq<nat>
    /** Every event delivered so far. */
    ghost var events: seq<Delivery>
    /** Every message logged so far. */
    ghost var messages: seq<string>

    function Parameters(): Values
      reads this
    {
      Values(isRunning, flowActiveValue, flowInactiveValue, valveOpenValue, valveClosedValue,
             nTrapsValue, triggerValue, trapsFilled, pixelSize, minSize)
    }

    function Configuration(): Setup
      reads this
    {
      Setup(flowController, flowType, valveController, valveType, currGroup, trapConfig,
            releaseConfig, overviewX, overviewY, imageWidth, imageHeight, imageDepth)
    }

    constructor ()
      ensures Parameters() == Values(0.0, 0.0, 0.0, 0.0, 0.0, 0, 0.0, 0, 1.0, 0)
      ensures Configuration() == Setup("", OtherDevice, "", OtherDevice, "", "", "", 0.0, 0.0, 0, 0, 0)
      ensures listeners == [] && events == [] && messages == []
    {
      isRunning := 0.0;
      flowController := "";
      flowType := OtherDevice;
      flowActiveValue := 0.0;
      flowInactiveValue := 0.0;
      valveController := "";
      valveType := OtherDevice;
      valveOpenValue := 0.0;
      valveClosedValue := 0.0;
      nTrapsValue := 0;
      triggerValue := 0.0;
      trapsFilled := 0;
      currGroup := "";
      trapConfig := "";
      releaseConfig := "";
      pixelSize := 1.0;
      overviewX := 0.0;
      overviewY := 0.0;
      imageWidth := 0;
      imageHeight := 0;
      imageDepth := 0;
      minSize := 0;
      listeners := [];
      events := [];
      messages := [];
    }

    method AddPropertyChangeListener(l: nat)
      modifies this`listeners
      ensures listeners == old(listeners) + [l]
    {
      listeners := listeners + [l];
    }

    method RemovePropertyChangeListener(l: nat)
      modifies this`listeners
      ensures listeners == RemoveFirst(old(listeners), l)
    {
      listeners := RemoveFirst(listeners, l);
    }

    /** setParameter(parameterType, value): announce, then store. */
    method SetParameter(p: Parameter, value: real)
      modifies this
      ensures Parameters() == Assign(old(Parameters()), p, value)
      ensures Configuration() == old(Configuration()) && listeners == old(listeners)
      ensures events == old(events) + Announced(old(Parameters()), p, value, listeners)
      ensures messages == old(messages) + if p == None then ["Unknown parameter type encountered"] else []
    {
      if p == None {
        messages := messages + ["Unknown parameter type encountered"];
        return;
      }
      // the listeners run before the field is written
      var n := Change(Parameters(), p, value);
      if n.Fired? {
        events := events + [Delivery(n.event, listeners, Parameters())];
      }
      Store(p, value);
    }

    /** The assignment that follows the announcement. */
    method Store(p: Parameter, value: real)
      requires p != None
      modifies this`isRunning, this`flowActiveValue, this`flowInactiveValue, this`valveOpenValue,
               this`valveClosedValue, this`nTrapsValue, this`triggerValue, this`trapsFilled,
               this`pixelSize, this`minSize
      ensures Parameters() == Assign(old(Parameters()), p, value)
      ensures Configuration() == old(Configuration()) && listeners == old(listeners)
      ensures events == old(events) && messages == old(messages)
    {
      match p
      case FlowActive => flowActiveValue := value;
      case FlowInactive => flowInactiveValue := value;
      case ValveDisplacement => valveOpenValue := value;
      case ValveDisplacementRate => valveClosedValue := value;
      case NTraps => nTrapsValue := IntValue(value);
      case Trigger => triggerValue := value;
      case TrapsFilled => trapsFilled := IntValue(value);
      case PixelSize => pixelSize := value;
      case MinSize => minSize := IntValue(value);
      case IsRunning => isRunning := value;
    }
  }

  // ---------------------------------------------------------------------------
  // Properties of setParameter

  /** A known parameter writes its own field, converted as the field's type
      demands, and no other field. */
  lemma AssignWritesOneField(v: Values, p: Parameter, x: real)
    requires p != None
    ensures Get(Assign(v, p, x), Target(p)) == if IntField(Target(p)) then Int(IntValue(x)) else Real(x)
    ensures forall f :: f != Target(p) ==> Get(Assign(v, p, x), f) == Get(v, f)
  {
  }

  /** Different parameters write different fields, and every field is written
      by some parameter. */
  lemma TargetBijective(p: Parameter, q: Parameter, f: Field)
    requires p != None && q != None && p != q
    ensures Target(p) != Target(q)
    ensures exists r :: r != None && Target(r) == f
  {
    match f
    case IsRunningValue => assert Target(IsRunning) == f;
    case FlowActiveValue => assert Target(FlowActive) == f;
    case FlowInactiveValue => assert Target(FlowInactive) == f;
    case ValveOpenValue => assert Target(ValveDisplacement) == f;
    case ValveClosedValue => assert Target(ValveDisplacementRate) == f;
    case NTrapsValue => assert Target(NTraps) == f;
    case TriggerValue => assert Target(Trigger) == f;
    case TrapsFilledValue => assert Target(TrapsFilled) == f;
    case PixelSizeValue => assert Target(PixelSize) == f;
    case MinSizeValue => assert Target(MinSize) == f;
  }

  /** The valve displacement is stored as the valve's open value and its rate
      as the valve's closed value, whatever the names suggest. */
  lemma ValveParameters(v: Values, x: real)
    ensures Assign(v, ValveDisplacement, x).valveOpenValue == x
    ensures Assign(v, ValveDisplacement, x).valveClosedValue == v.valveClosedValue
    ensures Assign(v, ValveDisplacementRate, x).valveClosedValue == x
    ensures Assign(v, ValveDisplacementRate, x).valveOpenValue == v.valveOpenValue
  {
  }

  /** Set then read: the trigger reads back exactly as set. */
  lemma TriggerReadBack(v: Values, x: real)
    ensures Assign(v, Trigger, x).triggerValue == x
    ensures Assign(Assign(v, Trigger, x), Trigger, x) == Assign(v, Trigger, x)
  {
  }

  /** The int fields keep the value truncated toward zero whenever it fits in an int. */
  lemma IntFieldsTruncate(v: Values, x: real)
    requires MinInt as real <= x < MaxInt as real + 1.0
    ensures Assign(v, NTraps, x).nTrapsValue == Truncate(x)
    ensures Assign(v, TrapsFilled, x).trapsFilled == Truncate(x)
    ensures Assign(v, MinSize, x).minSize == Truncate(x)
    ensures var t := Truncate(x) as real; if 0.0 <= x then t <= x < t + 1.0 else t - 1.0 < x <= t
  {
  }

  /** Beyond the int range the conversion saturates. */
  lemma IntValueSaturates(x: real)
    ensures x >= MaxInt as real + 1.0 ==> IntValue(x) == MaxInt
    ensures x <= MinInt as real - 1.0 ==> IntValue(x) == MinInt
  {
  }

  /** None writes nothing and announces nothing. */
  lemma NoneIgnored(v: Values, x: real)
    ensures Assign(v, None, x) == v && Change(v, None, x) == Silent
  {
  }

  /** A double parameter is announced exactly when its value changes, with the
      field's old value; an int parameter is announced on every call, since a
      boxed Integer or the AtomicInteger never equals a Double. */
  lemma ChangeAnnounced(v: Values, p: Parameter, x: real)
    requires p != None
    ensures Change(v, p, x).Fired? ==> Change(v, p, x).event.property == PropertyName(p)
    ensures Change(v, p, x).Fired? ==> Change(v, p, x).event.newValue == x
    ensures IntField(Target(p)) ==> Change(v, p, x).Fired?
    ensures !IntField(Target(p)) ==>
      (Change(v, p, x).Fired? <==> Get(v, Target(p)) != Real(x))
    ensures !IntField(Target(p)) && Change(v, p, x).Fired? ==>
      Real(Change(v, p, x).event.oldValue.d) == Get(v, Target(p))
  {
  }

  /** Removing a listener just added, which was not registered before, restores
      the list; removing an unregistered listener changes nothing. */
  lemma {:induction false} AddThenRemove(s: seq<nat>, l: nat)
    requires l !in s
    ensures RemoveFirst(s + [l], l) == s
  {
    if |s| > 0 {
      assert (s + [l])[1..] == s[1..] + [l];
      AddThenRemove(s[1..], l);
    }
  }
}
