/**
  Command sets are composites on the heap: a header is a leaf over an array of commands, a
  set holds an array of headers and sets.  Building one replays its leaves into a builder,
  which starts one native header for each.
 */
module CommandSets {
  import opened Words

  datatype Command =
    | Crob(code: Byte, count: Byte, onTime: Uint32, offTime: Uint32)
    | AnalogInt16(int16: int)
    | AnalogInt32(int32: int)
    | AnalogFloat32(single: real)
    | AnalogDouble64(double: real)

  /** Which of the five overloads of `Add` a header calls. */
  datatype Kind = KCrob | KInt16 | KInt32 | KFloat32 | KDouble64

  datatype Indexed = Indexed(value: Command, index: Uint16)

  /** One call of `Add`: the overload, and the commands in order. */
  datatype Batch = Batch(kind: Kind, commands: seq<Indexed>)

  // ------------------------------ native side ------------------------------

  /** `TypedCommandHeader<T>`. */
  class NativeHeader {
    const kind: Kind
    var records: seq<Indexed>
    var useSingleByteIndex: bool

    constructor (kind: Kind)
      ensures this.kind == kind && records == [] && useSingleByteIndex
    {
      this.kind := kind;
      records := [];
      useSingleByteIndex := true;
    }

    method Add(command: Command, index: Uint16)
      modifies this
      ensures records == old(records) + [Indexed(command, index)]
      ensures useSingleByteIndex == (old(useSingleByteIndex) && index <= 255)
    {
      if index > 255 {
        useSingleByteIndex := false;
      }
      records := records + [Indexed(command, index)];
    }

    ghost function View(): HeaderView
      reads this
    {
      HeaderView(kind, records, useSingleByteIndex)
    }
  }

  datatype HeaderView = HeaderView(kind: Kind, records: seq<Indexed>, singleByte: bool)

  /** The header that holds a batch: one byte indices exactly when every index fits. */
  ghost function Holding(b: Batch): HeaderView {
    HeaderView(b.kind, b.commands, forall i :: 0 <= i < |b.commands| ==> b.commands[i].index <= 255)
  }

  ghost function AllHolding(log: seq<Batch>): (views: seq<HeaderView>)
    ensures |views| == |log|
    ensures forall i :: 0 <= i < |log| ==> views[i] == Holding(log[i])
  {
    seq(|log|, i requires 0 <= i < |log| => Holding(log[i]))
  }

  /** `CommandSetBuilder` over its `CommandSet`: every `Add` starts a header and fills it. */
  class CommandSetBuilder {
    var headers: seq<NativeHeader>
    ghost var log: seq<Batch>

    ghost function Repr(): set<object>
      reads this
    {
      {this as object} + set h: NativeHeader | h in headers :: h as object
    }

    /** The native set holds one header for each `Add`, in order, with just its commands. */
    ghost predicate Valid()
      reads this, headers
    {
      && |headers| == |log|
      && forall i :: 0 <= i < |headers| ==> headers[i].View() == Holding(log[i])
    }

    constructor ()
      ensures Valid() && log == [] && fresh(Repr())
    {
      headers, log := [], [];
    }

    method Add(kind: Kind, commands: array<Indexed>)
      requires Valid() && commands as object !in Repr()
      modifies Repr()
      ensures Valid() && fresh(Repr() - old(Repr()))
      ensures log == old(log) + [Batch(kind, commands[..])]
    {
      var header := new NativeHeader(kind);
      var n := 0;
      while n < commands.Length
        invariant n <= commands.Length
        invariant header.View() == Holding(Batch(kind, commands[..n]))
        invariant unchanged(Repr())
        modifies header
      {
        header.Add(commands[n].value, commands[n].index);
        n := n + 1;
        assert commands[..n] == commands[..n - 1] + [commands[n - 1]];
      }
      assert commands[..n] == commands[..];
      headers := headers + [header];
      log := log + [Batch(kind, commands[..])];
    }
  }

  // ------------------------------- composites -------------------------------

  /** `ICommandHeaders`: the two classes that implement it. */
  datatype Headers = Leaf(header: CommandHeader) | Node(commands: CommandSet)

  /** A leaf's action captures the caller's array. */
  class CommandHeader {
    const kind: Kind
    const commands: array<Indexed>

    constructor From(kind: Kind, commands: array<Indexed>)
      ensures this.kind == kind && this.commands == commands
    {
      this.kind := kind;
      this.commands := commands;
    }
  }

  class CommandSet {
    const headers: array<Headers>

    constructor From(headers: array<Headers>)
      ensures this.headers == headers
    {
      this.headers := headers;
    }
  }

  /**
    Within the objects `r`, `x` is nested at most `height` deep.  The arrays are shared
    references, so this is what rules out a set that contains itself.
   */
  ghost predicate Nested(x: Headers, height: nat, r: set<object>)
    reads r
    decreases height
  {
    match x
    case Leaf(header) => header.commands in r
    case Node(commands) =>
      && commands.headers in r && height > 0
      && forall i :: 0 <= i < commands.headers.Length ==> Nested(commands.headers[i], height - 1, r)
  }

  /** What a composite means: the tree of batches under it. */
  datatype Tree = Single(batch: Batch) | Many(children: seq<Tree>)

  ghost function ToTree(x: Headers, height: nat, r: set<object>): Tree
    requires Nested(x, height, r)
    reads r
    decreases height, 0
  {
    match x
    case Leaf(header) => Single(Batch(header.kind, header.commands[..]))
    case Node(commands) => Many(ToTrees(commands.headers, height - 1, r))
  }

  ghost function ToTrees(headers: array<Headers>, height: nat, r: set<object>): (ts: seq<Tree>)
    requires headers in r && forall i :: 0 <= i < headers.Length ==> Nested(headers[i], height, r)
    reads r
    ensures |ts| == headers.Length
    ensures forall i :: 0 <= i < headers.Length ==> ts[i] == ToTree(headers[i], height, r)
    decreases height, 1
  {
    seq(headers.Length, i requires 0 <= i < headers.Length && headers in r && Nested(headers[i], height, r) reads r =>
          ToTree(headers[i], height, r))
  }

  /** The leaves, left to right. */
  function Leaves(t: Tree): seq<Batch> {
    match t
    case Single(batch) => [batch]
    case Many(children) => AllLeaves(children)
  }

  function AllLeaves(ts: seq<Tree>): seq<Batch> {
    if ts == [] then [] else Leaves(ts[0]) + AllLeaves(ts[1..])
  }

  /** What a composite adds to a builder. */
  ghost function Added(x: Headers, height: nat, r: set<object>): seq<Batch>
    requires Nested(x, height, r)
    reads r
  {
    Leaves(ToTree(x, height, r))
  }

  function Concat(parts: seq<seq<Batch>>): seq<Batch> {
    if parts == [] then [] else parts[0] + Concat(parts[1..])
  }

  /** What the elements of an array add, each by itself. */
  ghost function EachAdded(headers: array<Headers>, height: nat, r: set<object>): (parts: seq<seq<Batch>>)
    requires headers in r && forall i :: 0 <= i < headers.Length ==> Nested(headers[i], height, r)
    reads r
    ensures |parts| == headers.Length
    ensures forall i :: 0 <= i < headers.Length ==> parts[i] == Added(headers[i], height, r)
  {
    seq(headers.Length, i requires 0 <= i < headers.Length && headers in r && Nested(headers[i], height, r) reads r =>
          Added(headers[i], height, r))
  }

  lemma {:induction false} LeavesEach(ts: seq<Tree>, parts: seq<seq<Batch>>)
    requires |ts| == |parts| && forall i :: 0 <= i < |ts| ==> parts[i] == Leaves(ts[i])
    ensures AllLeaves(ts) == Concat(parts)
  {
    if ts != [] {
      LeavesEach(ts[1..], parts[1..]);
    }
  }

  /** A header adds its own commands as one batch; a set adds what its elements add, in array order. */
  lemma AddedIs(x: Headers, height: nat, r: set<object>)
    requires Nested(x, height, r)
    ensures x.Leaf? ==> Added(x, height, r) == [Batch(x.header.kind, x.header.commands[..])]
    ensures x.Node? ==> Added(x, height, r) == Concat(EachAdded(x.commands.headers, height - 1, r))
  {
    if x.Node? {
      var headers := x.commands.headers;
      LeavesEach(ToTrees(headers, height - 1, r), EachAdded(headers, height - 1, r));
    }
  }

  /** `ICommandHeaders.Build`: terminates on every nesting, adding exactly the leaves, in order. */
  method Build(x: Headers, builder: CommandSetBuilder, ghost height: nat, ghost r: set<object>)
    requires Nested(x, height, r) && builder.Valid() && builder.Repr() !! r
    modifies builder.Repr()
    ensures builder.Valid() && fresh(builder.Repr() - old(builder.Repr()))
    ensures builder.log == old(builder.log) + old(Added(x, height, r))
    ensures x.Leaf? ==> builder.log == old(builder.log) + [Batch(x.header.kind, old(x.header.commands[..]))]
    ensures x.Node? ==> builder.log == old(builder.log) + Concat(old(EachAdded(x.commands.headers, height - 1, r)))
    decreases height, 0
  {
    AddedIs(x, height, r);
    match x
    case Leaf(header) => builder.Add(header.kind, header.commands);
    case Node(commands) => BuildAll(commands.headers, builder, height - 1, r);
  }

  /** The `foreach` of a set. */
  method BuildAll(headers: array<Headers>, builder: CommandSetBuilder, ghost height: nat, ghost r: set<object>)
    requires headers in r && forall i :: 0 <= i < headers.Length ==> Nested(headers[i], height, r)
    requires builder.Valid() && builder.Repr() !! r
    modifies builder.Repr()
    ensures builder.Valid() && fresh(builder.Repr() - old(builder.Repr()))
    ensures builder.log == old(builder.log) + AllLeaves(old(ToTrees(headers, height, r)))
    decreases height, 1
  {
    ghost var trees := ToTrees(headers, height, r);
    var n := 0;
    while n < headers.Length
      invariant n <= headers.Length == |trees|
      invariant builder.Valid() && fresh(builder.Repr() - old(builder.Repr())) && unchanged(r)
      invariant builder.log == old(builder.log) + AllLeaves(trees[..n])
    {
      assert ToTree(headers[n], height, r) == old(ToTree(headers[n], height, r)) == trees[n];
      LeavesUpTo(trees, n, old(builder.log));
      Build(headers[n], builder, height, r);
      n := n + 1;
    }
    assert trees[..n] == trees;
  }

  lemma LeavesUpTo(ts: seq<Tree>, n: nat, log: seq<Batch>)
    requires n < |ts|
    ensures log + AllLeaves(ts[..n + 1]) == log + AllLeaves(ts[..n]) + Leaves(ts[n])
  {
    assert ts[..n + 1] == ts[..n] + [ts[n]];
    AllLeavesAppend(ts[..n], [ts[n]]);
    assert AllLeaves([ts[n]]) == Leaves(ts[n]);
  }

  lemma {:induction false} AllLeavesAppend(a: seq<Tree>, b: seq<Tree>)
    ensures AllLeaves(a + b) == AllLeaves(a) + AllLeaves(b)
  {
    if a == [] {
      assert a + b == b;
    } else {
      assert (a + b)[1..] == a[1..] + b;
      AllLeavesAppend(a[1..], b);
    }
  }

  /**
    `MasterConversions::Convert(ICommandHeaders)`: into a fresh set goes exactly one native
    header for each leaf, in leaf order, with that leaf's commands and index width.
   */
  method Convert(x: Headers, ghost height: nat, ghost r: set<object>) returns (builder: CommandSetBuilder)
    requires Nested(x, height, r)
    ensures fresh(builder.Repr()) && builder.Valid()
    ensures var expected := AllHolding(Added(x, height, r));
            && |builder.headers| == |expected|
            && forall i :: 0 <= i < |expected| ==> builder.headers[i].View() == expected[i]
    // a single header becomes a single native header with its kind, its commands and their index width
    ensures x.Leaf? ==>
      && |builder.headers| == 1 && builder.headers[0].kind == x.header.kind
      && builder.headers[0].records == x.header.commands[..]
      && (builder.headers[0].useSingleByteIndex <==>
            forall i :: 0 <= i < x.header.commands.Length ==> x.header.commands[i].index <= 255)
  {
    ghost var added := Added(x, height, r);
    AddedIs(x, height, r);
    builder := new CommandSetBuilder();
    assert Added(x, height, r) == added;
    Build(x, builder, height, r);
    assert Added(x, height, r) == added;
    assert builder.log == added;
    if x.Leaf? {
      assert builder.headers[0].View() == Holding(added[0]);
    }
  }

  // ---------------------------- laws of nesting ----------------------------

  /** A larger height, or more objects, does not change what a composite means. */
  lemma {:induction false} HeightIrrelevant(x: Headers, height: nat, r: set<object>, more: nat, s: set<object>)
    requires Nested(x, height, r) && height <= more && r <= s
    ensures Nested(x, more, s) && ToTree(x, more, s) == ToTree(x, height, r)
    decreases height
  {
    match x
    case Leaf(_) =>
    case Node(commands) =>
      forall i | 0 <= i < commands.headers.Length
        ensures Nested(commands.headers[i], more - 1, s)
        ensures ToTree(commands.headers[i], more - 1, s) == ToTree(commands.headers[i], height - 1, r) {
        HeightIrrelevant(commands.headers[i], height - 1, r, more - 1, s);
      }
      assert ToTree(x, more, s).children == ToTree(x, height, r).children;
  }

  /** Splicing: nesting any run of neighbours in a set of their own, even an empty run, changes nothing. */
  lemma Regrouping(a: seq<Tree>, b: seq<Tree>, c: seq<Tree>)
    ensures Leaves(Many(a + [Many(b)] + c)) == Leaves(Many(a + b + c))
    ensures Leaves(Many(a + [Many([])] + c)) == Leaves(Many(a + c))
  {
    AllLeavesAppend(a + [Many(b)], c);
    AllLeavesAppend(a, [Many(b)]);
    AllLeavesAppend(a + b, c);
    AllLeavesAppend(a, b);
    AllLeavesAppend(a + [Many([])], c);
    AllLeavesAppend(a, [Many([])]);
    AllLeavesAppend(a, c);
    assert AllLeaves([Many(b)]) == AllLeaves(b);
    assert AllLeaves([Many([])]) == [];
  }

  /** The subtree reached by taking child `path[0]`, then `path[1]`, and so on. */
  ghost predicate ReachedBy(t: Tree, path: seq<nat>, sub: Tree)
    decreases |path|
  {
    if path == [] then t == sub
    else t.Many? && path[0] < |t.children| && ReachedBy(t.children[path[0]], path[1..], sub)
  }

  function Replace(t: Tree, path: seq<nat>, instead: Tree): Tree
    decreases |path|
  {
    if path == [] then instead
    else if t.Many? && path[0] < |t.children|
    then Many(t.children[path[0] := Replace(t.children[path[0]], path[1..], instead)])
    else t
  }

  /** At any depth, a subtree can be exchanged for another with the same leaves. */
  lemma {:induction false} ReplaceKeepsLeaves(t: Tree, path: seq<nat>, sub: Tree, instead: Tree)
    requires ReachedBy(t, path, sub) && Leaves(sub) == Leaves(instead)
    ensures Leaves(Replace(t, path, instead)) == Leaves(t)
    decreases |path|
  {
    if path != [] {
      var i, ts := path[0], t.children;
      ReplaceKeepsLeaves(ts[i], path[1..], sub, instead);
      var us := ts[i := Replace(ts[i], path[1..], instead)];
      assert ts == ts[..i] + [ts[i]] + ts[i + 1..] && us == ts[..i] + [us[i]] + ts[i + 1..];
      AllLeavesAppend(ts[..i] + [ts[i]], ts[i + 1..]);
      AllLeavesAppend(ts[..i], [ts[i]]);
      AllLeavesAppend(ts[..i] + [us[i]], ts[i + 1..]);
      AllLeavesAppend(ts[..i], [us[i]]);
      assert AllLeaves([ts[i]]) == AllLeaves([us[i]]);
    }
  }

  /** Every composite builds what the flat set of its leaves builds. */
  function Flat(log: seq<Batch>): (t: Tree)
    ensures t.Many? && |t.children| == |log|
    ensures forall i :: 0 <= i < |log| ==> t.children[i] == Single(log[i])
  {
    Many(seq(|log|, i requires 0 <= i < |log| => Single(log[i])))
  }

  lemma {:induction false} FlatForm(log: seq<Batch>)
    ensures Leaves(Flat(log)) == log
  {
    var ts := Flat(log).children;
    assert Leaves(Flat(log)) == AllLeaves(ts);
    if log != [] {
      FlatForm(log[1..]);
      assert ts[1..] == Flat(log[1..]).children;
      assert AllLeaves(ts) == [log[0]] + AllLeaves(ts[1..]);
    }
  }

  // ------------------- the vector overload beside the adapter -------------------

  /** `CommandSet::Add(std::vector)`, which the Java builder calls, skips an empty batch. */
  function NonEmpty(log: seq<Batch>): seq<Batch> {
    if log == [] then []
    else KeptOf(log[0]) + NonEmpty(log[1..])
  }

  /** What is kept of the first batch. */
  function KeptOf(b: Batch): seq<Batch> {
    if b.commands == [] then [] else [b]
  }

  /** The empty batches are left out, and only they; the others keep their order. */
  lemma NonEmptyIsFilter(b: Batch, rest: seq<Batch>)
    ensures NonEmpty([]) == [] && KeptOf(b) == if |b.commands| == 0 then [] else [b]
    ensures NonEmpty([b] + rest) == KeptOf(b) + NonEmpty(rest)
  {
    assert ([b] + rest)[1..] == rest;
  }

  lemma {:induction false} NonEmptyLength(log: seq<Batch>)
    ensures |NonEmpty(log)| <= |log|
    ensures |NonEmpty(log)| == |log| <==> forall i :: 0 <= i < |log| ==> log[i].commands != []
    ensures (forall i :: 0 <= i < |log| ==> log[i].commands != []) ==> NonEmpty(log) == log
  {
    if log != [] {
      NonEmptyLength(log[1..]);
      assert forall i :: 0 <= i < |log[1..]| ==> log[1..][i] == log[i + 1];
      assert (forall i :: 0 <= i < |log| ==> log[i].commands != [])
        <==> log[0].commands != [] && forall i :: 0 <= i < |log[1..]| ==> log[1..][i].commands != [] by {
        if log[0].commands != [] && forall i :: 0 <= i < |log[1..]| ==> log[1..][i].commands != [] {
          assert forall i :: 0 < i < |log| ==> log[i] == log[1..][i - 1];
        }
      }
    }
  }

  /** The two bindings fill a native set alike exactly when no header is empty. */
  lemma BindingsAgreeIff(t: Tree)
    ensures AllHolding(NonEmpty(Leaves(t))) == AllHolding(Leaves(t))
       <==> forall i :: 0 <= i < |Leaves(t)| ==> Leaves(t)[i].commands != []
  {
    NonEmptyLength(Leaves(t));
  }
}
