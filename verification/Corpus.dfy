/** The corpus validator's normalized signature: a canonical form of traces up to renaming of
    identifiers. */
module Corpus {
  import opened Orders
  import opened Json
  import opened Records

  /** A record as the signature sees it, over identifiers of type `T`. */
  datatype Shape<T> =
    | EventShape(eventKind: EventKind, cls: Classification, id: T, parents: seq<T>)
    | EdgeShape(edgeKind: EdgeKind, cls: Classification, from: T, to: T, asserted: bool)
    | MemoryShape(action: Action, state: MemoryState, cls: Classification, event: T, namespace: T, item: T, version: T)

  /** The identifiers of a shape in the order in which they are tokenised. */
  function Names<T>(s: Shape<T>): seq<T> {
    match s
    case EventShape(_, _, id, parents) => [id] + parents
    case EdgeShape(_, _, from, to, _) => [from, to]
    case MemoryShape(_, _, _, event, namespace, item, version) => [event, namespace, item, version]
  }

  /** The shape with its identifiers replaced, in the same order. */
  function Rebuild<T, U>(s: Shape<T>, names: seq<U>): (r: Shape<U>)
    requires |names| == |Names(s)|
    ensures Names(r) == names
  {
    match s
    case EventShape(kind, cls, _, _) => EventShape(kind, cls, names[0], names[1..])
    case EdgeShape(kind, cls, _, _, asserted) => EdgeShape(kind, cls, names[0], names[1], asserted)
    case MemoryShape(action, state, cls, _, _, _, _) => MemoryShape(action, state, cls, names[0], names[1], names[2],
        names[3])
  }

  function MapShape<T, U>(f: T -> U, s: Shape<T>): Shape<U> {
    Rebuild(s, MapSeq(f, Names(s)))
  }

  function MapShapes<T, U>(f: T -> U, shapes: seq<Shape<T>>): (r: seq<Shape<U>>)
    ensures |r| == |shapes| && forall i :: 0 <= i < |r| ==> r[i] == MapShape(f, shapes[i])
  {
    seq(|shapes|, i requires 0 <= i < |shapes| => MapShape(f, shapes[i]))
  }

  function AllNames<T>(shapes: seq<Shape<T>>): seq<T> {
    if shapes == [] then [] else AllNames(shapes[..|shapes| - 1]) + Names(shapes[|shapes| - 1])
  }

  function ShapeOf(p: Payload): Shape<string>
    requires p.Source?()
  {
    match p
    case Event(cls, id, kind, _, _, parents, _) => EventShape(kind, cls, id, parents)
    case Edge(cls, _, kind, from, to, asserted, _) => EdgeShape(kind, cls, from, to, asserted)
    case MemoryOp(cls, _, action, entry, state, event, _) =>
      MemoryShape(action, state, cls, event, entry.namespace, entry.item, entry.version)
  }

  function Projection(records: seq<Record>): seq<Shape<string>> {
    if records == [] then []
    else
      var init, last := records[..|records| - 1], records[|records| - 1];
      Projection(init) + if last.payload.Source?() then [ShapeOf(last.payload)] else []
  }

  // ---------------------------------------------------------------- first occurrences

  function Note(order: seq<string>, x: string): seq<string> {
    if x in order then order else order + [x]
  }

  function NoteAll(order: seq<string>, xs: seq<string>): seq<string>
    decreases |xs|
  {
    if xs == [] then order else NoteAll(Note(order, xs[0]), xs[1..])
  }

  /** Distinct elements in the order of their first occurrence. */
  function Occurrences(xs: seq<string>): seq<string> {
    NoteAll([], xs)
  }

  /** Noting keeps the list free of repetitions, keeps its start, and adds exactly the new names. */
  lemma {:induction false} NoteAllMeaning(order: seq<string>, xs: seq<string>)
    requires Distinct(order)
    ensures Distinct(NoteAll(order, xs)) && order <= NoteAll(order, xs)
    ensures forall x :: x in NoteAll(order, xs) <==> x in order || x in xs
    decreases |xs|
  {
    if xs != [] {
      NoteAllMeaning(Note(order, xs[0]), xs[1..]);
      assert xs == [xs[0]] + xs[1..];
    }
  }

  lemma {:induction false} NoteAllAppend(order: seq<string>, xs: seq<string>, ys: seq<string>)
    ensures NoteAll(order, xs + ys) == NoteAll(NoteAll(order, xs), ys)
    decreases |xs|
  {
    if xs == [] {
      assert xs + ys == ys;
    } else {
      assert (xs + ys)[1..] == xs[1..] + ys;
      NoteAllAppend(Note(order, xs[0]), xs[1..], ys);
    }
  }

  /** The position of `x`, or the length of the list when it is absent. */
  function Index(order: seq<string>, x: string): (i: nat)
    ensures i <= |order| && (x in order <==> i < |order|)
    ensures i < |order| ==> order[i] == x
  {
    if order == [] || order[0] == x then 0 else 1 + Index(order[1..], x)
  }

  lemma {:induction false} IndexOfDistinct(order: seq<string>, i: nat)
    requires Distinct(order) && i < |order|
    ensures Index(order, order[i]) == i
  {
    var j := Index(order, order[i]);
    assert order[i] in order;
  }

  lemma {:induction false} IndexStable(small: seq<string>, large: seq<string>, x: string)
    requires Distinct(large) && small <= large && x in small
    ensures Index(large, x) == Index(small, x)
  {
    IndexOfDistinct(large, Index(small, x));
  }

  // ---------------------------------------------------------------- tokens

  function TokenText(n: nat): string {
    "id" + NatText(n)
  }

  lemma {:induction false} TokenTextInjective(a: nat, b: nat)
    ensures TokenText(a) == TokenText(b) <==> a == b
  {
    if TokenText(a) == TokenText(b) {
      assert TokenText(a)[2..] == NatText(a) && TokenText(b)[2..] == NatText(b);
      NatTextValue(a);
      NatTextValue(b);
    }
  }

  /** The token every identifier of a trace ends up with. */
  function TokenIn(order: seq<string>): string -> string {
    x => TokenText(Index(order, x))
  }

  function Structure(shapes: seq<Shape<string>>): seq<Shape<string>> {
    MapShapes(TokenIn(Occurrences(AllNames(shapes))), shapes)
  }

  /** A dictionary of tokens: injective, with the tokens of 0 up to its size as range. */
  ghost predicate TokenMap(identifiers: map<string, string>, order: seq<string>) {
    && Distinct(order) && |identifiers| == |order|
    && (forall x :: x in identifiers <==> x in order)
    && forall x :: x in identifiers ==> identifiers[x] == TokenText(Index(order, x))
  }

  lemma {:induction false} TokenMapStep(identifiers: map<string, string>, order: seq<string>, x: string)
    requires TokenMap(identifiers, order) && x !in identifiers
    ensures TokenMap(identifiers[x := TokenText(|identifiers|)], order + [x])
  {
    var larger, token := order + [x], TokenText(|identifiers|);
    NewIndex(order, x);
    forall y | y in identifiers[x := token]
      ensures y in larger && identifiers[x := token][y] == TokenText(Index(larger, y))
    {
      if y != x {
        IndexStable(order, larger, y);
      }
    }
  }

  lemma {:induction false} NewIndex(order: seq<string>, x: string)
    requires Distinct(order) && x !in order
    ensures Distinct(order + [x]) && Index(order + [x], x) == |order|
  {
    IndexOfDistinct(order + [x], |order|);
  }

  /** The shared dictionary behind the source's `token`. */
  class Tokenizer {
    var identifiers: map<string, string>
    ghost var order: seq<string>

    ghost predicate Valid()
      reads this
    {
      TokenMap(identifiers, order)
    }

    constructor ()
      ensures Valid() && order == []
    {
      identifiers := map[];
      order := [];
    }

    method Token(value: string) returns (token: string)
      requires Valid()
      modifies this
      ensures Valid() && order == Note(old(order), value)
      ensures value in order && token == TokenText(Index(order, value))
    {
      if value !in identifiers {
        TokenMapStep(identifiers, order, value);
        identifiers := identifiers[value := TokenText(|identifiers|)];
        order := order + [value];
      }
      token := identifiers[value];
    }

    /** Tokens of several identifiers in turn. */
    method Tokens(values: seq<string>) returns (tokens: seq<string>)
      requires Valid()
      modifies this
      ensures Valid() && order == NoteAll(old(order), values)
      ensures tokens == MapSeq(TokenIn(order), values)
    {
      tokens := [];
      for i := 0 to |values|
        invariant Valid() && order == NoteAll(old(order), values[..i])
        invariant tokens == MapSeq(TokenIn(order), values[..i])
      {
        OneMore(values, i);
        TokensStep(old(order), values[..i], values[i]);
        var token := Token(values[i]);
        tokens := tokens + [token];
      }
      assert values[..|values|] == values;
    }

    /** One record of the signature, its identifiers tokenised in the order of the source. */
    method TokeniseShape(s: Shape<string>) returns (r: Shape<string>)
      requires Valid()
      modifies this
      ensures Valid() && order == NoteAll(old(order), Names(s))
      ensures r == MapShape(TokenIn(order), s)
    {
      var tokens := Tokens(Names(s));
      r := Rebuild(s, tokens);
    }
  }

  lemma {:induction false} TokensStep(order: seq<string>, values: seq<string>, value: string)
    requires Distinct(order)
    ensures var small := NoteAll(order, values);
      var large := Note(small, value);
      NoteAll(order, values + [value]) == large
      && MapSeq(TokenIn(large), values + [value]) == MapSeq(TokenIn(small), values) + [TokenText(Index(large, value))]
  {
    var small := NoteAll(order, values);
    NoteAllMeaning(order, values);
    NoteAllAppend(order, values, [value]);
    TokensStable(small, Note(small, value), values);
    TokensSnoc(Note(small, value), values, value);
  }

  lemma {:induction false} TokensSnoc(order: seq<string>, values: seq<string>, value: string)
    ensures MapSeq(TokenIn(order), values + [value])
      == MapSeq(TokenIn(order), values) + [TokenText(Index(order, value))]
  {}

  /** A longer list of names gives the noted ones the same tokens. */
  lemma {:induction false} TokensStable(small: seq<string>, large: seq<string>, names: seq<string>)
    requires Distinct(large) && small <= large && forall x <- names :: x in small
    ensures MapSeq(TokenIn(large), names) == MapSeq(TokenIn(small), names)
  {
    forall i | 0 <= i < |names| ensures TokenIn(large)(names[i]) == TokenIn(small)(names[i]) {
      IndexStable(small, large, names[i]);
    }
  }

  /** The loop of the signature: its result is the closed form in which every identifier has
      the token of its first occurrence in the whole trace. */
  method NormalizedStructure(records: seq<Record>) returns (structure: seq<Shape<string>>)
    ensures structure == Structure(Projection(records))
  {
    var tokenizer := new Tokenizer();
    structure := [];
    ghost var shapes: seq<Shape<string>> := [];
    for i := 0 to |records|
      invariant tokenizer.Valid() && fresh(tokenizer)
      invariant shapes == Projection(records[..i])
      invariant tokenizer.order == Occurrences(AllNames(shapes)) && structure == Structure(shapes)
    {
      ProjectionStep(records, i);
      if records[i].payload.Source?() {
        var s := ShapeOf(records[i].payload);
        StructureStep(shapes, s);
        var r := tokenizer.TokeniseShape(s);
        structure := structure + [r];
        shapes := shapes + [s];
      }
    }
    assert records[..|records|] == records;
  }

  lemma {:induction false} ProjectionStep(records: seq<Record>, i: nat)
    requires i < |records|
    ensures Projection(records[..i + 1])
      == Projection(records[..i]) + if records[i].payload.Source?() then [ShapeOf(records[i].payload)] else []
  {
    assert records[..i + 1][..i] == records[..i];
  }

  lemma {:induction false} StructureStep(shapes: seq<Shape<string>>, s: Shape<string>)
    ensures var order := NoteAll(Occurrences(AllNames(shapes)), Names(s));
      order == Occurrences(AllNames(shapes + [s]))
          && Structure(shapes + [s]) == Structure(shapes) + [MapShape(TokenIn(order), s)]
  {
    var small := Occurrences(AllNames(shapes));
    var large := NoteAll(small, Names(s));
    AllNamesStep(shapes, s);
    NoteAllMeaning([], AllNames(shapes));
    NoteAllMeaning(small, Names(s));
    forall i | 0 <= i < |shapes| ensures MapShape(TokenIn(large), shapes[i]) == MapShape(TokenIn(small), shapes[i]) {
      NamesIncluded(shapes, i);
      TokensStable(small, large, Names(shapes[i]));
    }
    assert MapShapes(TokenIn(large), shapes) == Structure(shapes);
    MapShapesSnoc(TokenIn(large), shapes, s);
  }

  lemma {:induction false} AllNamesStep(shapes: seq<Shape<string>>, s: Shape<string>)
    ensures AllNames(shapes + [s]) == AllNames(shapes) + Names(s)
    ensures Occurrences(AllNames(shapes + [s])) == NoteAll(Occurrences(AllNames(shapes)), Names(s))
  {
    assert (shapes + [s])[..|shapes|] == shapes;
    NoteAllAppend([], AllNames(shapes), Names(s));
  }

  lemma {:induction false} MapShapesSnoc<T, U>(f: T -> U, shapes: seq<Shape<T>>, s: Shape<T>)
    ensures MapShapes(f, shapes + [s]) == MapShapes(f, shapes) + [MapShape(f, s)]
  {}

  lemma {:induction false} NamesIncluded(shapes: seq<Shape<string>>, i: nat)
    requires i < |shapes|
    ensures forall x <- Names(shapes[i]) :: x in AllNames(shapes)
  {
    if i < |shapes| - 1 {
      NamesIncluded(shapes[..|shapes| - 1], i);
    }
  }

  // ---------------------------------------------------------------- canonical form

  function Apply(m: map<string, string>): string -> string {
    x => if x in m then m[x] else x
  }

  ghost predicate InjectiveOn(f: string -> string, names: seq<string>) {
    forall x, y :: x in names && y in names && f(x) == f(y) ==> x == y
  }

  /** `m` is one-to-one on the identifiers of `p` and carries `p` onto `q`. */
  ghost predicate Renaming(m: map<string, string>, p: seq<Shape<string>>, q: seq<Shape<string>>) {
    && (forall x <- AllNames(p) :: x in m)
    && InjectiveOn(Apply(m), AllNames(p))
    && MapShapes(Apply(m), p) == q
  }

  lemma {:induction false} RebuildTwice<T, U, W>(s: Shape<T>, a: seq<U>, b: seq<W>)
    requires |a| == |b| == |Names(s)|
    ensures Rebuild(Rebuild(s, a), b) == Rebuild(s, b)
  {}

  lemma {:induction false} RebuildSelf<T>(s: Shape<T>)
    ensures Rebuild(s, Names(s)) == s
  {}

  lemma {:induction false} MapSeqJoin(f: string -> string, a: seq<string>, b: seq<string>)
    ensures MapSeq(f, a + b) == MapSeq(f, a) + MapSeq(f, b)
  {}

  lemma {:induction false} AllNamesMapped(f: string -> string, p: seq<Shape<string>>)
    ensures AllNames(MapShapes(f, p)) == MapSeq(f, AllNames(p))
  {
    if p != [] {
      var init, last := p[..|p| - 1], p[|p| - 1];
      assert p == init + [last];
      AllNamesMapped(f, init);
      MappedSnoc(f, p, init, last);
    }
  }

  lemma {:induction false} MappedSnoc(f: string -> string, p: seq<Shape<string>>, init: seq<Shape<string>>,
      last: Shape<string>)
    requires p == init + [last] && AllNames(MapShapes(f, init)) == MapSeq(f, AllNames(init))
    ensures AllNames(MapShapes(f, p)) == MapSeq(f, AllNames(p))
  {
    MappedInit(f, init, last);
    MapSeqJoin(f, AllNames(init), Names(last));
    assert p[..|init|] == init;
  }

  lemma {:induction false} MappedInit(f: string -> string, init: seq<Shape<string>>, last: Shape<string>)
    ensures AllNames(MapShapes(f, init + [last])) == AllNames(MapShapes(f, init)) + MapSeq(f, Names(last))
  {
    var mapped := MapShapes(f, init + [last]);
    assert mapped[..|init|] == MapShapes(f, init);
    assert mapped[|init|] == MapShape(f, last);
  }

  lemma {:induction false} NotesMapped(f: string -> string, order: seq<string>, xs: seq<string>)
    requires InjectiveOn(f, order + xs)
    ensures NoteAll(MapSeq(f, order), MapSeq(f, xs)) == MapSeq(f, NoteAll(order, xs))
    decreases |xs|
  {
    if xs != [] {
      assert xs[0] in order + xs;
      assert forall x :: x in order ==> x in order + xs;
      if f(xs[0]) in MapSeq(f, order) {
        var i :| 0 <= i < |order| && MapSeq(f, order)[i] == f(xs[0]);
        assert order[i] in order;
      }
      if xs[0] in order {
        var i :| 0 <= i < |order| && order[i] == xs[0];
        assert MapSeq(f, order)[i] == f(xs[0]);
      }
      var next := Note(order, xs[0]);
      assert MapSeq(f, next) == Note(MapSeq(f, order), f(xs[0]));
      assert forall x :: x in next + xs[1..] ==> x in order + xs;
      NotesMapped(f, next, xs[1..]);
      assert MapSeq(f, xs)[1..] == MapSeq(f, xs[1..]);
    }
  }

  lemma {:induction false} IndexMapped(f: string -> string, order: seq<string>, x: string)
    requires Distinct(order) && InjectiveOn(f, order) && x in order
    ensures Index(MapSeq(f, order), f(x)) == Index(order, x)
  {
    var mapped, i := MapSeq(f, order), Index(order, x);
    assert mapped[i] == f(x) && mapped[i] in mapped;
    var j := Index(mapped, f(x));
    assert mapped[j] == f(order[j]) && order[j] in order;
  }

  lemma {:induction false} RenamedShape(f: string -> string, order: seq<string>, s: Shape<string>)
    requires Distinct(order) && InjectiveOn(f, order) && forall x <- Names(s) :: x in order
    ensures MapShape(TokenIn(MapSeq(f, order)), MapShape(f, s)) == MapShape(TokenIn(order), s)
  {
    var names := Names(s);
    forall k | 0 <= k < |names| ensures TokenIn(MapSeq(f, order))(f(names[k])) == TokenIn(order)(names[k]) {
      IndexMapped(f, order, names[k]);
    }
    assert MapSeq(TokenIn(MapSeq(f, order)), MapSeq(f, names)) == MapSeq(TokenIn(order), names);
    RebuildTwice(s, MapSeq(f, names), MapSeq(TokenIn(order), names));
  }

  lemma {:induction false} OccurrencesMapped(f: string -> string, xs: seq<string>)
    requires InjectiveOn(f, xs)
    ensures Occurrences(MapSeq(f, xs)) == MapSeq(f, Occurrences(xs))
    ensures Distinct(Occurrences(xs)) && InjectiveOn(f, Occurrences(xs)) && forall x <- xs :: x in Occurrences(xs)
  {
    assert [] + xs == xs && MapSeq(f, []) == [];
    NotesMapped(f, [], xs);
    NoteAllMeaning([], xs);
  }

  /** Renaming the identifiers one-to-one leaves the signature structure as it is. */
  lemma {:induction false} RenamingKeepsStructure(m: map<string, string>, p: seq<Shape<string>>, q: seq<Shape<string>>)
    requires Renaming(m, p, q)
    ensures Structure(p) == Structure(q)
  {
    var f := Apply(m);
    var order := Occurrences(AllNames(p));
    OccurrencesMapped(f, AllNames(p));
    forall i | 0 <= i < |p| ensures MapShape(TokenIn(MapSeq(f, order)), q[i]) == MapShape(TokenIn(order), p[i]) {
      NamesIncluded(p, i);
      RenamedShape(f, order, p[i]);
    }
    AllNamesMapped(f, p);
  }

  lemma {:induction false} NameSomewhere(p: seq<Shape<string>>, x: string) returns (i: nat, k: nat)
    requires x in AllNames(p)
    ensures i < |p| && k < |Names(p[i])| && Names(p[i])[k] == x
  {
    var init, last := p[..|p| - 1], p[|p| - 1];
    if x in Names(last) {
      i := |p| - 1;
      k :| 0 <= k < |Names(last)| && Names(last)[k] == x;
    } else {
      i, k := NameSomewhere(init, x);
    }
  }

  /** Equal structures: corresponding identifiers have the same position of first occurrence. */
  lemma {:induction false} EqualStructureAligns(p: seq<Shape<string>>, q: seq<Shape<string>>, i: nat)
    requires Structure(p) == Structure(q) && i < |p|
    ensures |p| == |q| && |Names(p[i])| == |Names(q[i])| && q[i] == Rebuild(p[i], Names(q[i]))
    ensures forall k :: 0 <= k < |Names(p[i])| ==>
      Index(Occurrences(AllNames(p)), Names(p[i])[k]) == Index(Occurrences(AllNames(q)), Names(q[i])[k])
  {
    var n, m := Occurrences(AllNames(p)), Occurrences(AllNames(q));
    var a, b := MapSeq(TokenIn(n), Names(p[i])), MapSeq(TokenIn(m), Names(q[i]));
    assert Structure(p)[i] == Rebuild(p[i], a) && Structure(q)[i] == Rebuild(q[i], b);
    assert a == b;
    RebuildTwice(p[i], a, Names(q[i]));
    RebuildTwice(q[i], b, Names(q[i]));
    RebuildSelf(q[i]);
    forall k | 0 <= k < |Names(p[i])| ensures Index(n, Names(p[i])[k]) == Index(m, Names(q[i])[k]) {
      assert a[k] == b[k];
      TokenTextInjective(Index(n, Names(p[i])[k]), Index(m, Names(q[i])[k]));
    }
  }

  /** The renaming that sends each identifier to the one first seen at the same place. */
  function Matching(n: seq<string>, m: seq<string>): map<string, string> {
    map x | x in n && Index(n, x) < |m| :: m[Index(n, x)]
  }

  /** Traces with one signature structure differ by a one-to-one renaming. */
  lemma {:induction false} EqualStructureRenames(p: seq<Shape<string>>, q: seq<Shape<string>>)
    requires Structure(p) == Structure(q)
    ensures Renaming(Matching(Occurrences(AllNames(p)), Occurrences(AllNames(q))), p, q)
  {
    var f := Matching(Occurrences(AllNames(p)), Occurrences(AllNames(q)));
    assert |p| == |Structure(p)| == |q|;
    MatchingCovers(p, q);
    forall i | 0 <= i < |p| ensures MapShape(Apply(f), p[i]) == q[i] { MatchedShape(p, q, i); }
    assert MapShapes(Apply(f), p) == q;
  }

  lemma {:induction false} MatchingCovers(p: seq<Shape<string>>, q: seq<Shape<string>>)
    requires Structure(p) == Structure(q) && |p| == |q|
    ensures var f := Matching(Occurrences(AllNames(p)), Occurrences(AllNames(q)));
      (forall x <- AllNames(p) :: x in f) && InjectiveOn(Apply(f), AllNames(p))
  {
    var f := Matching(Occurrences(AllNames(p)), Occurrences(AllNames(q)));
    NoteAllMeaning([], AllNames(p));
    NoteAllMeaning([], AllNames(q));
    forall x | x in AllNames(p) ensures x in f {
      var i, k := NameSomewhere(p, x);
      MatchedName(p, q, i, k);
    }
    MatchingInjective(Occurrences(AllNames(p)), Occurrences(AllNames(q)), AllNames(p));
  }

  lemma {:induction false} MatchingInjective(n: seq<string>, m: seq<string>, names: seq<string>)
    requires Distinct(m) && forall x <- names :: x in Matching(n, m)
    ensures InjectiveOn(Apply(Matching(n, m)), names)
  {
    forall x, y | x in names && y in names && Apply(Matching(n, m))(x) == Apply(Matching(n, m))(y) ensures x == y {
      IndexOfDistinct(m, Index(n, x));
      IndexOfDistinct(m, Index(n, y));
    }
  }

  lemma {:induction false} MatchedName(p: seq<Shape<string>>, q: seq<Shape<string>>, i: nat, k: nat)
    requires Structure(p) == Structure(q) && i < |p| == |q| && k < |Names(p[i])|
    ensures var f := Matching(Occurrences(AllNames(p)), Occurrences(AllNames(q)));
      k < |Names(q[i])| && Names(p[i])[k] in f && f[Names(p[i])[k]] == Names(q[i])[k]
  {
    NoteAllMeaning([], AllNames(p));
    NoteAllMeaning([], AllNames(q));
    EqualStructureAligns(p, q, i);
    NamesIncluded(p, i);
    NamesIncluded(q, i);
    assert Names(p[i])[k] in AllNames(p) && Names(q[i])[k] in AllNames(q);
  }

  lemma {:induction false} MatchedShape(p: seq<Shape<string>>, q: seq<Shape<string>>, i: nat)
    requires Structure(p) == Structure(q) && i < |p| == |q|
    ensures MapShape(Apply(Matching(Occurrences(AllNames(p)), Occurrences(AllNames(q)))), p[i]) == q[i]
  {
    var f := Matching(Occurrences(AllNames(p)), Occurrences(AllNames(q)));
    EqualStructureAligns(p, q, i);
    forall k | 0 <= k < |Names(p[i])| ensures Apply(f)(Names(p[i])[k]) == Names(q[i])[k] { MatchedName(p, q, i, k); }
    assert MapSeq(Apply(f), Names(p[i])) == Names(q[i]);
  }

  /** The signature structure is a canonical form: two traces have the same one if and only
      if a one-to-one renaming of identifiers carries one projection onto the other. */
  lemma {:induction false} StructureIsCanonical(a: seq<Record>, b: seq<Record>)
    ensures Structure(Projection(a)) == Structure(Projection(b)) <==>
      exists m :: Renaming(m, Projection(a), Projection(b))
  {
    var p, q := Projection(a), Projection(b);
    if Structure(p) == Structure(q) {
      EqualStructureRenames(p, q);
    }
    if m :| Renaming(m, p, q) {
      RenamingKeepsStructure(m, p, q);
    }
  }
}
