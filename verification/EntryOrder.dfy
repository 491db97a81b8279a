/** The order of the specifiers of a rule does not matter, as the language promises, except that a
    source port range must not come before a destination port. */
module EntryOrder {
  import opened FilterSpec
  import opened FilterEntry

  type Bag = multiset<Literal>

  /** At most one specifier of each kind. */
  ghost predicate OneOfEach(m: Bag) {
    (forall l | l in m :: m[l] == 1) &&
    forall l, l' | l in m && l' in m && KindOf(l.spec) == KindOf(l'.spec) :: l == l'
  }

  lemma OneOfEachFirst(ls: seq<Literal>)
    requires ls != [] && OneOfEach(multiset(ls))
    ensures multiset(ls[1..]) == multiset(ls) - multiset{ls[0]} && OneOfEach(multiset(ls[1..]))
    ensures forall l | l in ls[1..] :: KindOf(l.spec) != KindOf(ls[0].spec)
  {
    assert ls == [ls[0]] + ls[1..];
    forall l | l in ls[1..] ensures KindOf(l.spec) != KindOf(ls[0].spec) {
      assert l in multiset(ls[1..]) && l in multiset(ls) && ls[0] in multiset(ls);
    }
  }

  // ----- the entry, leaving the guards aside -----

  function Put(e: Entry, l: Literal): Entry {
    Mark(Assign(e, l.spec), KindOf(l.spec), l.negate)
  }

  function Build(e: Entry, ls: seq<Literal>): Entry
    decreases |ls|
  {
    if ls == [] then e else Build(Put(e, ls[0]), ls[1..])
  }

  lemma {:induction false} FoldBuilds(e: Entry, ls: seq<Literal>)
    ensures Fold(e, ls).Some? ==> Fold(e, ls).value == Build(e, ls)
    decreases |ls|
  {
    if ls != [] && ApplyLiteral(e, ls[0]).Some? {
      FoldBuilds(Put(e, ls[0]), ls[1..]);
    }
  }

  lemma MarkCommutes(e: Entry, k: Kind, n: bool, k': Kind, n': bool)
    ensures Mark(Mark(e, k, n), k', n') == Mark(Mark(e, k', n'), k, n)
  {
    assert e.negated + {k} + {k'} == e.negated + {k'} + {k};
  }

  lemma AssignCommutes(e: Entry, s: Spec, s': Spec)
    requires KindOf(s) != KindOf(s')
    ensures Assign(Assign(e, s), s') == Assign(Assign(e, s'), s)
  {
    var a, b := Assign(Assign(e, s), s'), Assign(Assign(e, s'), s);
    assert a.whatsSet == b.whatsSet;
  }

  lemma MarkAssign(e: Entry, k: Kind, n: bool, s: Spec)
    ensures Assign(Mark(e, k, n), s) == Mark(Assign(e, s), k, n)
  {
  }

  lemma PutCommutes(e: Entry, l: Literal, l': Literal)
    requires KindOf(l.spec) != KindOf(l'.spec)
    ensures Put(Put(e, l), l') == Put(Put(e, l'), l)
  {
    MarkAssign(Assign(e, l.spec), KindOf(l.spec), l.negate, l'.spec);
    MarkAssign(Assign(e, l'.spec), KindOf(l'.spec), l'.negate, l.spec);
    AssignCommutes(e, l.spec, l'.spec);
    MarkCommutes(Assign(Assign(e, l.spec), l'.spec), KindOf(l.spec), l.negate, KindOf(l'.spec), l'.negate);
  }

  lemma {:induction false} BuildMove(e: Entry, x: seq<Literal>, l: Literal, y: seq<Literal>)
    requires forall l' | l' in x :: KindOf(l'.spec) != KindOf(l.spec)
    ensures Build(e, x + [l] + y) == Build(Put(e, l), x + y)
    decreases |x|
  {
    if x == [] {
      assert [] + [l] + y == [l] + y && [] + y == y;
    } else {
      assert (x + [l] + y)[1..] == x[1..] + [l] + y && (x + y)[1..] == x[1..] + y;
      BuildMove(Put(e, x[0]), x[1..], l, y);
      PutCommutes(e, x[0], l);
    }
  }

  lemma {:induction false} BuildPermuted(e: Entry, ls: seq<Literal>, ls': seq<Literal>)
    requires OneOfEach(multiset(ls)) && multiset(ls) == multiset(ls')
    ensures Build(e, ls) == Build(e, ls')
    decreases |ls|
  {
    if ls == [] {
      assert |multiset(ls')| == |ls'|;
    } else {
      assert ls[0] in multiset(ls');
      var i :| 0 <= i < |ls'| && ls'[i] == ls[0];
      var x, y := ls'[..i], ls'[i+1..];
      assert ls' == x + [ls[0]] + y;
      OneOfEachFirst(ls);
      assert multiset(x + y) == multiset(ls[1..]);
      forall l | l in x ensures KindOf(l.spec) != KindOf(ls[0].spec) {
        assert l in multiset(x + y) && l in multiset(ls[1..]);
      }
      BuildMove(e, x, ls[0], y);
      BuildPermuted(Put(e, ls[0]), ls[1..], x + y);
    }
  }

  // ----- when the fold succeeds -----

  predicate IsSportRange(l: Literal) {
    l.spec.SportSpec? && l.spec.sport.max.Some?
  }

  predicate HasDport(ls: seq<Literal>) {
    ls != [] && (ls[0].spec.DportSpec? || HasDport(ls[1..]))
  }

  /** A source port range before a destination port: the one order that is refused. */
  predicate RangeBeforeDport(ls: seq<Literal>) {
    ls != [] && ((IsSportRange(ls[0]) && HasDport(ls[1..])) || RangeBeforeDport(ls[1..]))
  }

  // ----- which repetitions are refused -----

  /** What a repetition of is noticed. */
  predicate Guarded(l: Literal) {
    !l.spec.DportSpec? && !l.spec.LogSpec? && !l.spec.OnewaySpec?
  }

  predicate Gives(ls: seq<Literal>, k: Kind) {
    ls != [] && (KindOf(ls[0].spec) == k || Gives(ls[1..], k))
  }

  /** Some kind of specifier other than destination ports, log texts and `oneway` occurs twice. */
  predicate Repeats(ls: seq<Literal>) {
    ls != [] && ((Guarded(ls[0]) && Gives(ls[1..], KindOf(ls[0].spec))) || Repeats(ls[1..]))
  }

  /** Some specifier is refused by the entry as it stands. */
  predicate Blocks(e: Entry, ls: seq<Literal>) {
    ls != [] && ((Guarded(ls[0]) && Refuses(e, ls[0].spec)) || Blocks(e, ls[1..]))
  }

  lemma AssignRefuses(e: Entry, s: Spec, s': Spec)
    requires !s'.DportSpec? && !s'.LogSpec? && !s'.OnewaySpec?
    ensures Refuses(Assign(e, s), s') <==> Refuses(e, s') || KindOf(s) == KindOf(s')
  {
    match s'
    case DirectionSpec(_, _) =>
    case TargetSpec(_) =>
    case SourceSpec(_) =>
    case DestSpec(_) =>
    case SportSpec(_) =>
    case _ =>
  }

  lemma PutRefuses(e: Entry, l: Literal, l': Literal)
    requires Guarded(l')
    ensures Refuses(Put(e, l), l'.spec) <==> Refuses(e, l'.spec) || KindOf(l.spec) == KindOf(l'.spec)
  {
    AssignRefuses(e, l.spec, l'.spec);
    assert Refuses(Put(e, l), l'.spec) == Refuses(Assign(e, l.spec), l'.spec);
  }

  lemma {:induction false} PutBlocks(e: Entry, l: Literal, ls: seq<Literal>)
    requires !Refuses(e, l.spec)
    ensures Blocks(Put(e, l), ls) <==> Blocks(e, ls) || (Guarded(l) && Gives(ls, KindOf(l.spec)))
    decreases |ls|
  {
    if ls != [] {
      PutBlocks(e, l, ls[1..]);
      if Guarded(ls[0]) {
        PutRefuses(e, l, ls[0]);
      }
    }
  }

  /** Exactly when an alternative is refused: something is given again that may be given once, or a
      destination port is given when there is a range of source ports.  Destination ports, log texts
      and `oneway` may be given any number of times, and the last one wins (`LastDportWins`). */
  lemma {:induction false} FoldSucceedsExactly(e: Entry, ls: seq<Literal>)
    ensures Fold(e, ls).Some? <==>
      !Blocks(e, ls) && !Repeats(ls) && !RangeBeforeDport(ls) && !(IsRange(e.sport) && HasDport(ls))
    decreases |ls|
  {
    if ls != [] && !Refuses(e, ls[0].spec) {
      FoldSucceedsExactly(Put(e, ls[0]), ls[1..]);
      PutBlocks(e, ls[0], ls[1..]);
    }
  }

  function LastDport(ls: seq<Literal>): Option<Ports>
    decreases |ls|
  {
    if ls == [] then None
    else if LastDport(ls[1..]).Some? then LastDport(ls[1..])
    else if ls[0].spec.DportSpec? then Some(ls[0].spec.dport) else None
  }

  predicate DportMarked(ls: seq<Literal>) {
    ls != [] && ((ls[0].spec.DportSpec? && ls[0].negate) || DportMarked(ls[1..]))
  }

  /** Of several destination ports the entry keeps the last, and the marks of all. */
  lemma {:induction false} LastDportWins(e: Entry, ls: seq<Literal>)
    requires Fold(e, ls).Some?
    ensures Fold(e, ls).value.dport == (if LastDport(ls).Some? then LastDport(ls) else e.dport)
    ensures DportBit in Fold(e, ls).value.negated <==> DportBit in e.negated || DportMarked(ls)
    decreases |ls|
  {
    if ls != [] {
      var e' := ApplyLiteral(e, ls[0]).value;
      LastDportWins(e', ls[1..]);
      assert e'.dport == (if ls[0].spec.DportSpec? then Some(ls[0].spec.dport) else e.dport);
      assert DportBit in e'.negated <==> DportBit in e.negated || (ls[0].spec.DportSpec? && ls[0].negate);
    }
  }

  // ----- the order does not matter -----

  lemma {:induction false} EachOnce(ls: seq<Literal>)
    requires OneOfEach(multiset(ls))
    ensures !Repeats(ls)
    decreases |ls|
  {
    if ls != [] {
      OneOfEachFirst(ls);
      EachOnce(ls[1..]);
      GivesMember(ls[1..], KindOf(ls[0].spec));
    }
  }

  lemma {:induction false} GivesMember(ls: seq<Literal>, k: Kind)
    ensures Gives(ls, k) <==> exists l :: l in ls && KindOf(l.spec) == k
    decreases |ls|
  {
    if ls != [] {
      GivesMember(ls[1..], k);
      assert ls == [ls[0]] + ls[1..];
    }
  }

  lemma {:induction false} EmptyBlocks(ls: seq<Literal>)
    ensures !Blocks(EMPTY, ls)
    decreases |ls|
  {
    if ls != [] {
      EmptyBlocks(ls[1..]);
    }
  }

  /** The elements of a rule can be placed in any order: two orders of the same specifiers, at most
      one of each kind, give the same entry, and an order is refused exactly for a source port range
      in front of a destination port. */
  lemma OrderIrrelevant(ls: seq<Literal>, ls': seq<Literal>)
    requires OneOfEach(multiset(ls)) && multiset(ls) == multiset(ls')
    ensures Fold(EMPTY, ls).Some? <==> !RangeBeforeDport(ls)
    ensures Fold(EMPTY, ls).Some? && Fold(EMPTY, ls').Some? ==> Fold(EMPTY, ls) == Fold(EMPTY, ls')
  {
    FoldSucceedsExactly(EMPTY, ls);
    EachOnce(ls);
    EmptyBlocks(ls);
    FoldBuilds(EMPTY, ls);
    FoldBuilds(EMPTY, ls');
    BuildPermuted(EMPTY, ls, ls');
  }
}
