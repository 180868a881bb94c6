/**
 * The PizzaStatus enum, its delivery times, and the reverse lookup from a
 * delivery time to the status that carries it.
 */
module IntToEnum {
  import opened Wrappers

  /** The enum constants, in declaration order. */
  datatype PizzaStatus = ORDERED | READY | DELIVERED

  /** getTimeToDelivery: the attribute each constant is declared with. */
  function TimeToDelivery(status: PizzaStatus): (t: int)
    ensures t >= 0
  {
    match status
    case ORDERED => 5
    case READY => 2
    case DELIVERED => 0
  }

  /** values(): the constants in declaration order, each once. */
  function Values(): (vs: seq<PizzaStatus>)
    ensures |vs| == 3
    ensures forall i, j :: 0 <= i < j < |vs| ==> vs[i] != vs[j]
  {
    [ORDERED, READY, DELIVERED]
  }

  /** values() lists every constant. */
  lemma ValuesComplete(status: PizzaStatus)
    ensures status in Values()
  {
    match status
    case ORDERED => assert Values()[0] == status;
    case READY => assert Values()[1] == status;
    case DELIVERED => assert Values()[2] == status;
  }

  /** No two constants share a delivery time. */
  lemma TimeToDeliveryInjective(a: PizzaStatus, b: PizzaStatus)
    ensures TimeToDelivery(a) == TimeToDelivery(b) ==> a == b
  {
  }

  /** Delivery times order the constants: DELIVERED before READY before ORDERED. */
  lemma DeliveryOrdering()
    ensures TimeToDelivery(DELIVERED) < TimeToDelivery(READY) < TimeToDelivery(ORDERED)
  {
  }

  /** The map the static initializer leaves after putting each of statuses, in order. */
  function Mapping(statuses: seq<PizzaStatus>): (m: map<int, PizzaStatus>)
    ensures forall t :: t in m ==> TimeToDelivery(m[t]) == t
    decreases |statuses|
  {
    if statuses == [] then map[]
    else
      var last := statuses[|statuses| - 1];
      Mapping(statuses[..|statuses| - 1])[TimeToDelivery(last) := last]
  }

  /** The keys are the delivery times of the statuses put, and each key maps to a status carrying it. */
  lemma {:induction false} MappingSpec(statuses: seq<PizzaStatus>)
    ensures Mapping(statuses).Keys == set s | s in statuses :: TimeToDelivery(s)
    ensures forall t :: t in Mapping(statuses) ==>
      Mapping(statuses)[t] in statuses && TimeToDelivery(Mapping(statuses)[t]) == t
    decreases |statuses|
  {
    if statuses != [] {
      var front := statuses[..|statuses| - 1];
      MappingSpec(front);
      assert statuses == front + [statuses[|statuses| - 1]];
    }
  }

  /** The map built from values(). */
  lemma ValuesMapping()
    ensures Mapping(Values()) == map[5 := ORDERED, 2 := READY, 0 := DELIVERED]
  {
    var vs := Values();
    assert vs[..2] == [ORDERED, READY];
    assert [ORDERED, READY][..1] == [ORDERED];
    assert [ORDERED][..0] == [];
    assert Mapping([ORDERED]) == map[5 := ORDERED];
    assert Mapping([ORDERED, READY]) == map[5 := ORDERED, 2 := READY];
  }

  /**
   * The static initializer: for each constant of values(), put its delivery time
   * as key and the constant as value into an initially empty map.
   */
  method BuildTimeToDeliveryMapping() returns (mapping: map<int, PizzaStatus>)
    ensures mapping == Mapping(Values())
    ensures mapping.Keys == {5, 2, 0}
    ensures forall t :: t in mapping ==> TimeToDelivery(mapping[t]) == t
  {
    var vs := Values();
    mapping := map[];
    var i := 0;
    while i < |vs|
      invariant 0 <= i <= |vs|
      invariant mapping == Mapping(vs[..i])
    {
      assert vs[..i + 1][..i] == vs[..i];
      mapping := mapping[TimeToDelivery(vs[i]) := vs[i]];
      i := i + 1;
    }
    assert vs[..i] == vs;
    ValuesMapping();
  }

  /**
   * castIntToEnum: the status whose delivery time is t, looked up in the map of the
   * static initializer; None (Java's null) for any other int, negative ones included.
   */
  function CastIntToEnum(timeToDelivery: int): (r: Option<PizzaStatus>)
    ensures forall s: PizzaStatus :: r == Some(s) <==> TimeToDelivery(s) == timeToDelivery
    ensures r.None? <==> timeToDelivery !in {0, 2, 5}
  {
    ValuesMapping();
    var mapping := Mapping(Values());
    if timeToDelivery in mapping then Some(mapping[timeToDelivery]) else None
  }

  /** Round trip: converting a status's delivery time back gives that status. */
  lemma CastIntToEnumRoundTrip(status: PizzaStatus)
    ensures CastIntToEnum(TimeToDelivery(status)) == Some(status)
  {
  }

  /** Round trip the other way: a time that converts is the delivery time of what it converts to. */
  lemma CastIntToEnumInverse(t: int)
    requires CastIntToEnum(t).Some?
    ensures TimeToDelivery(CastIntToEnum(t).value) == t
  {
  }

  /** The boundary values of the integration test. */
  lemma CastIntToEnumExamples()
    ensures CastIntToEnum(5) == Some(ORDERED)
    ensures CastIntToEnum(2) == Some(READY)
    ensures CastIntToEnum(0) == Some(DELIVERED)
    ensures CastIntToEnum(-1).None? && CastIntToEnum(1).None? && CastIntToEnum(3).None?
    ensures CastIntToEnum(100).None?
  {
  }

  /** The invalid inputs of the unit test: 999 and -1 give null. */
  lemma CastIntToEnumInvalidExamples()
    ensures CastIntToEnum(999).None?
    ensures CastIntToEnum(-1).None?
  {
  }
}
