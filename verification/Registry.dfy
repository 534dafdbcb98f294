/**
 * The registry that resolves kinds to concrete types (registry.go), and the
 * refinements of a kind it accepts.
 */
module Registry {

  type Kind = string
  type ConcreteType = string

  /** What the codec reads of a registry: its kinds, and the refinements each accepts from outside its hierarchy. */
  datatype Refinements = Refinements(kinds: set<Kind>, crossHierarchy: map<Kind, seq<Kind>>)

  /** p is kind, or kind refines p by suffixes that colons separate. */
  predicate SegmentPrefix(p: Kind, kind: Kind) {
    p == kind || (p < kind && kind[|p|] == ':')
  }

  /** The place of the last colon, or -1. */
  function LastColon(kind: Kind): (i: int)
    ensures -1 <= i < |kind|
    ensures i >= 0 ==> kind[i] == ':'
    ensures forall k :: i < k < |kind| ==> kind[k] != ':'
  {
    if kind == "" then -1
    else if kind[|kind| - 1] == ':' then |kind| - 1
    else LastColon(kind[..|kind| - 1])
  }

  function LongestRegistered(kinds: set<Kind>, kind: Kind): Kind
    decreases |kind|
  {
    if kind in kinds then kind
    else if LastColon(kind) < 0 then ""
    else LongestRegistered(kinds, kind[..LastColon(kind)])
  }

  method LongestRegisteredPrefix(kinds: set<Kind>, kind0: Kind) returns (longest: Kind)
    ensures longest == LongestRegistered(kinds, kind0)
  {
    var kind := kind0;
    while true
      invariant LongestRegistered(kinds, kind) == LongestRegistered(kinds, kind0)
      decreases |kind|
    {
      if kind in kinds {
        return kind;
      }
      var i := LastColon(kind);
      if i < 0 {
        return "";
      }
      kind := kind[..i];
    }
  }

  /** A proper segment prefix ends at a colon, so it is one of what the last colon leaves. */
  lemma ShorterPrefix(p: Kind, kind: Kind)
    requires SegmentPrefix(p, kind) && p != kind
    ensures LastColon(kind) >= 0 && SegmentPrefix(p, kind[..LastColon(kind)])
  {
    var i := LastColon(kind);
    assert |p| <= i;
    assert p == kind[..|p|];
    if |p| < i {
      assert kind[..i][..|p|] == p && kind[..i][|p|] == ':';
    }
  }

  lemma LongerKind(p: Kind, kind: Kind)
    requires LastColon(kind) >= 0 && SegmentPrefix(p, kind[..LastColon(kind)])
    ensures SegmentPrefix(p, kind)
  {
    var i := LastColon(kind);
    assert kind[..i] < kind;
    if p != kind[..i] {
      assert kind[|p|] == kind[..i][|p|];
    }
  }

  /** The longest of the registered kinds that kind is or refines, or empty when there is none. */
  lemma {:induction false} LongestRegisteredIsLongest(kinds: set<Kind>, kind: Kind)
    requires "" !in kinds
    ensures var longest := LongestRegistered(kinds, kind);
            && (longest != "" ==> longest in kinds && SegmentPrefix(longest, kind))
            && (forall p :: p in kinds && SegmentPrefix(p, kind) ==> longest != "" && SegmentPrefix(p, longest) && |p| <= |longest|)
    decreases |kind|
  {
    var i := LastColon(kind);
    if kind !in kinds {
      forall p | p in kinds && SegmentPrefix(p, kind) ensures i >= 0 && SegmentPrefix(p, kind[..i]) {
        ShorterPrefix(p, kind);
      }
      if i >= 0 {
        LongestRegisteredIsLongest(kinds, kind[..i]);
        if LongestRegistered(kinds, kind[..i]) != "" {
          LongerKind(LongestRegistered(kinds, kind[..i]), kind);
        }
      }
    }
  }

  predicate Refines(reg: Refinements, kind: Kind, refined: Kind) {
    (kind in reg.crossHierarchy && refined in reg.crossHierarchy[kind]) || LongestRegistered(reg.kinds, refined) == kind
  }

  /** A registered kind is refined by what it lists, and by what extends it as long as no finer registered kind does. */
  lemma RefinesExactly(reg: Refinements, kind: Kind, refined: Kind)
    requires "" !in reg.kinds && kind in reg.kinds
    ensures Refines(reg, kind, refined) <==>
      (kind in reg.crossHierarchy && refined in reg.crossHierarchy[kind])
      || (SegmentPrefix(kind, refined) && forall p :: p in reg.kinds && SegmentPrefix(p, refined) ==> |p| <= |kind|)
  {
    LongestRegisteredIsLongest(reg.kinds, refined);
    var longest := LongestRegistered(reg.kinds, refined);
    if SegmentPrefix(kind, refined) && forall p :: p in reg.kinds && SegmentPrefix(p, refined) ==> |p| <= |kind| {
      assert |kind| == |longest|;
      SamePrefix(kind, longest);
    }
  }

  lemma SamePrefix(p: Kind, q: Kind)
    requires SegmentPrefix(p, q) && |p| == |q|
    ensures p == q
  {
  }

  // -------------------------------------------------------- registering

  datatype Registered = Done | EmptyKind | KindTwice | TypeTwice

  /** A kind names one concrete type: looked up by type on the way out, by kind on the way in. */
  class KindTable {
    var types: map<Kind, ConcreteType>
    var kinds: map<ConcreteType, Kind>

    ghost predicate Valid()
      reads this
    {
      && "" !in types
      && (forall k :: k in types ==> types[k] in kinds && kinds[types[k]] == k)
      && (forall t :: t in kinds ==> kinds[t] in types && types[kinds[t]] == t)
    }

    constructor ()
      ensures Valid() && types == map[] && kinds == map[]
    {
      types, kinds := map[], map[];
    }

    method Register(kind: Kind, t: ConcreteType) returns (r: Registered)
      requires Valid()
      modifies this
      ensures Valid()
      ensures r == if kind == "" then EmptyKind else if kind in old(types) then KindTwice else if t in old(kinds) then TypeTwice else Done
      ensures r.Done? ==> types == old(types)[kind := t] && kinds == old(kinds)[t := kind]
      ensures !r.Done? ==> types == old(types) && kinds == old(kinds)
    {
      if kind == "" {
        return EmptyKind;
      }
      if kind in types {
        return KindTwice;
      }
      if t in kinds {
        return TypeTwice;
      }
      types, kinds := types[kind := t], kinds[t := kind];
      r := Done;
    }
  }
}
