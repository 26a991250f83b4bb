/**
  * The manager's `ConvertTo-Xml` replies after parsing: a tree of `Object`
  * and `Property` elements with `Name` and `Type` attributes, and the
  * deserializer that turns them into records, lists and scalars
  * (`parse_data`, `SCVMMDataHolderDict`, `SCVMMDataHolderList` in
  * wrapanapi/systems/scvmm.py), plus the XPath selections run over the same
  * tree.
  */
module PropertyTree {
  import opened Wrappers
  import opened Text

  /**
    * One parsed element: its tag, its `Name` and `Type` attributes when
    * present, its text before the first child (`None` when there is none, as
    * lxml reports it) and its child elements in document order.
    */
  datatype Element = Element(
    tag: string,
    name: Option<string>,
    typ: Option<string>,
    text: Option<string>,
    children: seq<Element>)

  /**
    * What the deserializer builds. A record is the `__dict__` of a data
    * holder (Python 2 dictionaries keep no order); a list holds what
    * `parse_data` gave for each child. There is no string case: `parse_data`
    * never returns its text.
    */
  datatype Value =
    | Null
    | Bool(b: bool)
    | Int(i: int)
    | Record(fields: map<string, Value>)
    | List(items: seq<Value>)

  predicate IsScalar(v: Value) {
    v.Null? || v.Bool? || v.Int?
  }

  /** `KeyError` on a missing attribute, `ValueError` from `int()`. */
  datatype TreeError = MissingAttribute(attribute: string) | NotAnInteger(text: string)

  const BooleanType := "System.Boolean"
  const IntegerPrefix := "System.Int"
  const StringType := "System.String"

  /** `parse_data(t, data)`, including its missing final `return`. */
  function ParseData(t: string, data: Option<string>): Result<Value, TreeError> {
    if data.None? then Ok(Null)
    else if t == BooleanType then Ok(Bool(Strip(Lower(data.value)) == "true"))
    else if StartsWith(t, IntegerPrefix) then
      match ParseInt(data.value)
      case Some(n) => Ok(Int(n))
      case None => Err(NotAnInteger(data.value))
    else if t == StringType && Strip(Lower(data.value)) == "none" then Ok(Null)
    else Ok(Null) // falls off the end of the function: None
  }

  /** A text-less leaf is `None` whatever its type. */
  lemma ParseDataNoText(t: string)
    ensures ParseData(t, None) == Ok(Null)
  {
  }

  /** Only an integer type with a non-numeric text raises; everything else yields a scalar. */
  lemma ParseDataOutcome(t: string, data: Option<string>)
    ensures ParseData(t, data).Err? <==>
      data.Some? && t != BooleanType && StartsWith(t, IntegerPrefix) && ParseInt(data.value).None?
    ensures ParseData(t, data).Ok? ==> IsScalar(ParseData(t, data).value)
  {
  }

  /** A boolean leaf is true exactly when its lower-cased, stripped text is `true`. */
  lemma ParseDataBoolean(s: string)
    ensures ParseData(BooleanType, Some(s)) == Ok(Bool(Strip(Lower(s)) == "true"))
  {
  }

  /** Case and surrounding whitespace do not matter: `" TRUE "` is true, `"false"` is false. */
  lemma ParseDataBooleanExamples()
    ensures ParseData(BooleanType, Some(" TRUE ")) == Ok(Bool(true))
    ensures ParseData(BooleanType, Some("false")) == Ok(Bool(false))
  {
    LowerPaddedTrue();
    StripPaddedTrue();
    StripLowerFalse();
  }

  lemma StripLowerFalse()
    ensures Strip(Lower("false")) == "false"
  {
    var f := "false";
    assert Lower(f)[0] == 'f' && Lower(f)[1] == 'a' && Lower(f)[2] == 'l' && Lower(f)[3] == 's' && Lower(f)[4] == 'e';
    assert Lower(f) == f;
    StripClean(f);
  }

  lemma LowerPaddedTrue()
    ensures Lower(" TRUE ") == " true "
  {
    var padded := " TRUE ";
    assert LowerChar('T') == 't' && LowerChar('R') == 'r' && LowerChar('U') == 'u' && LowerChar('E') == 'e';
    assert Lower(padded)[1] == 't' && Lower(padded)[2] == 'r' && Lower(padded)[3] == 'u' && Lower(padded)[4] == 'e';
  }

  lemma StripPaddedTrue()
    ensures Strip(" true ") == "true"
  {
    var lowered := " true ";
    assert lowered[1..] == "true ";
    assert TrimLeft(lowered) == "true ";
    assert "true "[..4] == "true";
    assert TrimRight("true ") == "true";
  }

  /** Every type whose name begins with `System.Int` reads its text with `int()`. */
  lemma ParseDataInteger(t: string, s: string, n: int)
    requires StartsWith(t, IntegerPrefix)
    ensures ParseData(t, Some(s)) == Ok(Int(n)) <==> ParseInt(s) == Some(n)
    ensures ParseData(t, Some(s)).Err? <==> ParseInt(s).None?
  {
    assert t != BooleanType by {
      assert t[..|IntegerPrefix|] == IntegerPrefix;
      assert BooleanType[7] != IntegerPrefix[7];
    }
  }

  /** Strings are never passed through: `none` and every other text give `None`. */
  lemma ParseDataString(s: string)
    ensures ParseData(StringType, Some(s)) == Ok(Null)
  {
    assert !StartsWith(StringType, IntegerPrefix) by {
      assert StringType[7] != IntegerPrefix[7];
    }
  }

  /**
    * Every type other than `System.Boolean` and `System.Int*` reaches the end
    * of `parse_data` without a `return`: `None` for every text.
    */
  lemma ParseDataOtherTypes(t: string, data: Option<string>)
    requires t != BooleanType && !StartsWith(t, IntegerPrefix)
    ensures ParseData(t, data) == Ok(Null)
  {
  }

  /** The type tag and text `ConvertTo-Xml` writes for a scalar. */
  function TypeTag(v: Value): string
    requires IsScalar(v)
  {
    match v
    case Bool(_) => BooleanType
    case Int(_) => "System.Int32"
    case Null => StringType
  }

  function TextOf(v: Value): Option<string>
    requires IsScalar(v)
  {
    match v
    case Bool(b) => Some(if b then "True" else "False")
    case Int(n) => Some(ShowInt(n))
    case Null => None
  }

  /** Reading back a serialized scalar gives the scalar. */
  lemma ScalarRoundTrip(v: Value)
    requires IsScalar(v)
    ensures ParseData(TypeTag(v), TextOf(v)) == Ok(v)
  {
    match v
    case Bool(b) =>
      var s := if b then "True" else "False";
      StripClean(Lower(s));
      assert Lower(s) == (if b then "true" else "false");
    case Int(n) =>
      assert StartsWith("System.Int32", IntegerPrefix);
      ParseShowInt(n);
    case Null =>
  }

  /////////////////////////////////////////////////////////////////////////////
  // The data holders, as specification functions

  predicate IsProperty(e: Element) {
    e.tag == "Property"
  }

  /** `prop.xpath("./Property[@Name]")` is non-empty. */
  predicate HasNamedProperty(e: Element) {
    exists i :: 0 <= i < |e.children| && IsProperty(e.children[i]) && e.children[i].name.Some?
  }

  /**
    * The entry a `Property` child contributes to a data-holder dictionary: a
    * nested dictionary when it has children of which some `Property` has a
    * `Name`, a list when it has children but none of them does, and
    * `parse_data(Type, text)` when it is a leaf.
    */
  function Entry(p: Element): Result<(string, Value), TreeError>
    decreases p, 2
  {
    if p.name.None? then Err(MissingAttribute("Name"))
    else if p.typ.None? then Err(MissingAttribute("Type"))
    else
      var v :=
        if p.children != [] then
          (if HasNamedProperty(p) then DictOf(p) else ListOf(p))
        else ParseData(p.typ.value, p.text);
      match v
      case Ok(x) => Ok((p.name.value, x))
      case Err(e) => Err(e)
  }

  /** The dictionary built from the first `n` children of `e`. */
  function DictFold(e: Element, n: nat): Result<map<string, Value>, TreeError>
    requires n <= |e.children|
    decreases e, 0, n
  {
    if n == 0 then Ok(map[])
    else
      match DictFold(e, n - 1)
      case Err(x) => Err(x)
      case Ok(m) =>
        var p := e.children[n - 1];
        if !IsProperty(p) then Ok(m)
        else
          match Entry(p)
          case Err(x) => Err(x)
          case Ok(kv) => Ok(m[kv.0 := kv.1])
  }

  /** `SCVMMDataHolderDict(e)`. */
  function DictOf(e: Element): Result<Value, TreeError>
    decreases e, 1
  {
    match DictFold(e, |e.children|)
    case Ok(m) => Ok(Record(m))
    case Err(x) => Err(x)
  }

  /** The item a `Property` child contributes to a data-holder list. */
  function ListItem(p: Element): Result<Value, TreeError> {
    if p.typ.None? then Err(MissingAttribute("Type")) else ParseData(p.typ.value, p.text)
  }

  /** The list built from the first `n` children of `e`. */
  function ListFold(e: Element, n: nat): Result<seq<Value>, TreeError>
    requires n <= |e.children|
  {
    if n == 0 then Ok([])
    else
      match ListFold(e, n - 1)
      case Err(x) => Err(x)
      case Ok(xs) =>
        var p := e.children[n - 1];
        if !IsProperty(p) then Ok(xs)
        else
          match ListItem(p)
          case Err(x) => Err(x)
          case Ok(v) => Ok(xs + [v])
  }

  /** `SCVMMDataHolderList(e)`. */
  function ListOf(e: Element): Result<Value, TreeError> {
    match ListFold(e, |e.children|)
    case Ok(xs) => Ok(List(xs))
    case Err(x) => Err(x)
  }

  /////////////////////////////////////////////////////////////////////////////
  // The data holders, as the loops the source runs

  /** `SCVMMDataHolderDict.__init__`: fills the dictionary child by child. */
  method BuildDict(e: Element) returns (r: Result<Value, TreeError>)
    ensures r == DictOf(e)
    decreases e
  {
    var fields: map<string, Value> := map[];
    for i := 0 to |e.children|
      invariant DictFold(e, i) == Ok(fields)
    {
      var p := e.children[i];
      if IsProperty(p) {
        if p.name.None? {
          DictFoldErrorSticks(e, i + 1, |e.children|);
          return Err(MissingAttribute("Name"));
        }
        if p.typ.None? {
          DictFoldErrorSticks(e, i + 1, |e.children|);
          return Err(MissingAttribute("Type"));
        }
        var v: Result<Value, TreeError>;
        if p.children != [] {
          if HasNamedProperty(p) {
            v := BuildDict(p);
          } else {
            v := BuildList(p);
          }
        } else {
          v := ParseData(p.typ.value, p.text);
        }
        if v.Err? {
          DictFoldErrorSticks(e, i + 1, |e.children|);
          return Err(v.error);
        }
        fields := fields[p.name.value := v.value];
      }
    }
    return Ok(Record(fields));
  }

  /** `SCVMMDataHolderList.__init__`: appends one `parse_data` result per child. */
  method BuildList(e: Element) returns (r: Result<Value, TreeError>)
    ensures r == ListOf(e)
  {
    var items: seq<Value> := [];
    for i := 0 to |e.children|
      invariant ListFold(e, i) == Ok(items)
    {
      var next := ListStep(e, i, items);
      if next.Err? {
        ListFoldErrorSticks(e, i + 1, |e.children|);
        return Err(next.error);
      }
      items := next.value;
    }
    return Ok(List(items));
  }

  /** One child of the list walk: a `Property` appends its `parse_data`, anything else is skipped. */
  method ListStep(e: Element, i: nat, items: seq<Value>) returns (r: Result<seq<Value>, TreeError>)
    requires i < |e.children| && ListFold(e, i) == Ok(items)
    ensures r == ListFold(e, i + 1)
  {
    var p := e.children[i];
    if !IsProperty(p) {
      return Ok(items);
    }
    if p.typ.None? {
      return Err(MissingAttribute("Type"));
    }
    var v := ParseData(p.typ.value, p.text);
    if v.Err? {
      return Err(v.error);
    }
    return Ok(items + [v.value]);
  }

  /** An exception ends the loop: a failed prefix fails the whole walk. */
  lemma {:induction false} DictFoldErrorSticks(e: Element, i: nat, k: nat)
    requires i <= k <= |e.children| && DictFold(e, i).Err?
    ensures DictFold(e, k) == DictFold(e, i)
    decreases k
  {
    if k > i {
      DictFoldErrorSticks(e, i, k - 1);
    }
  }

  lemma {:induction false} ListFoldErrorSticks(e: Element, i: nat, k: nat)
    requires i <= k <= |e.children| && ListFold(e, i).Err?
    ensures ListFold(e, k) == ListFold(e, i)
    decreases k
  {
    if k > i {
      ListFoldErrorSticks(e, i, k - 1);
    }
  }

  /////////////////////////////////////////////////////////////////////////////
  // What the data holders contain

  /** The `Name`s of the `Property` children among the first `n` children. */
  function NamesUpTo(e: Element, n: nat): set<string>
    requires n <= |e.children|
  {
    set i | 0 <= i < n && IsProperty(e.children[i]) && e.children[i].name.Some? :: e.children[i].name.value
  }

  /** A dictionary has one key per distinct `Name` of a `Property` child, and no other. */
  lemma {:induction false} DictFoldKeys(e: Element, n: nat)
    requires n <= |e.children| && DictFold(e, n).Ok?
    ensures DictFold(e, n).value.Keys == NamesUpTo(e, n)
  {
    if n > 0 {
      DictFoldKeys(e, n - 1);
      var p := e.children[n - 1];
      assert NamesUpTo(e, n) ==
        NamesUpTo(e, n - 1) + (if IsProperty(p) && p.name.Some? then {p.name.value} else {});
    }
  }

  /**
    * When two `Property` children share a name, the later one wins: the value
    * under a key is the entry of the last child with that name.
    */
  lemma {:induction false} DictFoldLastWins(e: Element, n: nat, j: nat, k: string)
    requires j < n <= |e.children| && DictFold(e, n).Ok?
    requires IsProperty(e.children[j]) && e.children[j].name == Some(k)
    requires forall l :: j < l < n && IsProperty(e.children[l]) ==> e.children[l].name != Some(k)
    ensures k in DictFold(e, n).value
    ensures Entry(e.children[j]) == Ok((k, DictFold(e, n).value[k]))
  {
    var p := e.children[n - 1];
    if j < n - 1 {
      DictFoldLastWins(e, n - 1, j, k);
      if IsProperty(p) {
        assert Entry(p).value.0 == p.name.value;
      }
    }
  }

  /**
    * The walk succeeds exactly when every `Property` child yields an entry; it
    * fails with the first failing child's error otherwise.
    */
  lemma {:induction false} DictFoldOutcome(e: Element, n: nat)
    requires n <= |e.children|
    ensures DictFold(e, n).Ok? <==>
      forall j :: 0 <= j < n && IsProperty(e.children[j]) ==> Entry(e.children[j]).Ok?
    ensures DictFold(e, n).Err? ==>
      exists j :: 0 <= j < n && IsProperty(e.children[j]) && Entry(e.children[j]) == Err(DictFold(e, n).error) &&
        forall l :: 0 <= l < j && IsProperty(e.children[l]) ==> Entry(e.children[l]).Ok?
  {
    if n > 0 {
      DictFoldOutcome(e, n - 1);
    }
  }

  /** The three shapes an entry can take, chosen as `SCVMMDataHolderDict` chooses them. */
  lemma EntryShape(p: Element)
    requires Entry(p).Ok?
    ensures p.name == Some(Entry(p).value.0) && p.typ.Some?
    ensures p.children == [] ==> Ok(Entry(p).value.1) == ParseData(p.typ.value, p.text)
    ensures p.children != [] && HasNamedProperty(p) ==> Entry(p).value.1.Record?
    ensures p.children != [] && !HasNamedProperty(p) ==>
      Entry(p).value.1.List? && forall x :: x in Entry(p).value.1.items ==> IsScalar(x)
  {
    if p.children != [] && !HasNamedProperty(p) {
      ListFoldContents(p, |p.children|);
    }
  }

  /** The `Property` children among the first `n` children, in document order. */
  function PropsUpTo(e: Element, n: nat): (ps: seq<Element>)
    requires n <= |e.children|
    ensures forall x :: x in ps ==> IsProperty(x)
  {
    if n == 0 then []
    else PropsUpTo(e, n - 1) + (if IsProperty(e.children[n - 1]) then [e.children[n - 1]] else [])
  }

  /**
    * A list holds exactly one item per `Property` child, in document order, and
    * each item is that child's `parse_data` result, so items are always scalars.
    */
  lemma {:induction false} ListFoldContents(e: Element, n: nat)
    requires n <= |e.children| && ListFold(e, n).Ok?
    ensures |ListFold(e, n).value| == |PropsUpTo(e, n)|
    ensures forall j :: 0 <= j < |PropsUpTo(e, n)| ==>
      ListItem(PropsUpTo(e, n)[j]) == Ok(ListFold(e, n).value[j])
    ensures forall x :: x in ListFold(e, n).value ==> IsScalar(x)
  {
    if n > 0 {
      ListFoldContents(e, n - 1);
      var p := e.children[n - 1];
      if IsProperty(p) {
        ParseDataOutcome(p.typ.value, p.text);
      }
    }
  }

  /** The list walk fails exactly when some `Property` child has no type or a bad integer. */
  lemma {:induction false} ListFoldOutcome(e: Element, n: nat)
    requires n <= |e.children|
    ensures ListFold(e, n).Ok? <==> forall x :: x in PropsUpTo(e, n) ==> ListItem(x).Ok?
  {
    if n > 0 {
      ListFoldOutcome(e, n - 1);
    }
  }

  /** A leaf `Property` holding a serialized scalar. */
  function Leaf(v: Value): Element
    requires IsScalar(v)
  {
    Element("Property", None, Some(TypeTag(v)), TextOf(v), [])
  }

  /** A collection whose unnamed `Property` children hold the given scalars. */
  function Collection(name: string, xs: seq<Value>): (e: Element)
    requires forall x :: x in xs ==> IsScalar(x)
    ensures |e.children| == |xs|
  {
    Element("Property", Some(name), Some("System.Object[]"), None, seq(|xs|, i requires 0 <= i < |xs| => Leaf(xs[i])))
  }

  /** Serializing scalars as a collection and reading it back as a list gives them back in order. */
  lemma ListRoundTrip(name: string, xs: seq<Value>)
    requires forall x :: x in xs ==> IsScalar(x)
    ensures ListOf(Collection(name, xs)) == Ok(List(xs))
  {
    var e := Collection(name, xs);
    forall k | 0 <= k < |xs|
      ensures IsProperty(e.children[k]) && ListItem(e.children[k]) == Ok(xs[k])
    {
      assert xs[k] in xs;
      ScalarRoundTrip(xs[k]);
    }
    ListFoldItems(e, xs, |xs|);
    assert xs[..|xs|] == xs;
  }

  /** A list walk over `Property` children whose items are known yields those items. */
  lemma {:induction false} ListFoldItems(e: Element, xs: seq<Value>, n: nat)
    requires |e.children| == |xs| && n <= |xs|
    requires forall k :: 0 <= k < |xs| ==> IsProperty(e.children[k]) && ListItem(e.children[k]) == Ok(xs[k])
    ensures ListFold(e, n) == Ok(xs[..n])
  {
    if n > 0 {
      ListFoldItems(e, xs, n - 1);
      ListFoldAppends(e, n, xs[..n - 1], xs[n - 1]);
      TakeSnoc(xs, n);
    }
  }

  /** The first `n` items are the first `n - 1` followed by item `n - 1`. */
  lemma TakeSnoc<T>(s: seq<T>, n: nat)
    requires 0 < n <= |s|
    ensures s[..n] == s[..n - 1] + [s[n - 1]]
  {
  }

  /** A `Property` child whose item is `v` appends `v` to the list so far. */
  lemma ListFoldAppends(e: Element, n: nat, items: seq<Value>, v: Value)
    requires 0 < n <= |e.children| && ListFold(e, n - 1) == Ok(items)
    requires IsProperty(e.children[n - 1]) && ListItem(e.children[n - 1]) == Ok(v)
    ensures ListFold(e, n) == Ok(items + [v])
  {
  }

  /** A collection of unnamed items is read as a list, not as a dictionary. */
  lemma CollectionIsList(name: string, xs: seq<Value>)
    requires forall x :: x in xs ==> IsScalar(x)
    requires xs != []
    ensures Entry(Collection(name, xs)) == Ok((name, List(xs)))
  {
    ListRoundTrip(name, xs);
  }

  /**
    * An empty collection has no children, so it is read as a leaf: `None`,
    * not an empty list. Here the round trip of lists does not hold.
    */
  lemma EmptyCollectionIsNull(name: string)
    ensures Entry(Collection(name, [])) == Ok((name, Null))
    ensures Entry(Collection(name, [])) != Ok((name, List([])))
  {
  }

  /** What a record field can hold and still read back: a scalar or a non-empty list of scalars. */
  predicate IsFieldValue(v: Value) {
    IsScalar(v) || (v.List? && v.items != [] && forall x :: x in v.items ==> IsScalar(x))
  }

  /** The `Property` element `ConvertTo-Xml` writes for one named field. */
  function FieldNode(name: string, v: Value): Element
    requires IsFieldValue(v)
  {
    if IsScalar(v) then Element("Property", Some(name), Some(TypeTag(v)), TextOf(v), [])
    else Collection(name, v.items)
  }

  /** An `Object` whose properties are the given fields, in order. */
  function RecordNode(fields: seq<(string, Value)>): (e: Element)
    requires forall i :: 0 <= i < |fields| ==> IsFieldValue(fields[i].1)
    ensures |e.children| == |fields|
  {
    Element("Object", None, None, None,
      seq(|fields|, i requires 0 <= i < |fields| => FieldNode(fields[i].0, fields[i].1)))
  }

  /** Each serialized field reads back as its name and value. */
  lemma FieldRoundTrip(name: string, v: Value)
    requires IsFieldValue(v)
    ensures Entry(FieldNode(name, v)) == Ok((name, v))
  {
    if IsScalar(v) {
      ScalarRoundTrip(v);
    } else {
      CollectionIsList(name, v.items);
    }
  }

  /**
    * A record of scalars and non-empty scalar lists with distinct names,
    * serialized and read back: a record with exactly those names, each
    * holding its value.
    */
  lemma RecordRoundTrip(fields: seq<(string, Value)>)
    requires forall i :: 0 <= i < |fields| ==> IsFieldValue(fields[i].1)
    requires forall i, j :: 0 <= i < j < |fields| ==> fields[i].0 != fields[j].0
    ensures DictOf(RecordNode(fields)).Ok? && DictOf(RecordNode(fields)).value.Record?
    ensures var m := DictOf(RecordNode(fields)).value.fields;
      && m.Keys == (set i | 0 <= i < |fields| :: fields[i].0)
      && forall i :: 0 <= i < |fields| ==> m[fields[i].0] == fields[i].1
  {
    var e := RecordNode(fields);
    var n := |fields|;
    forall j | 0 <= j < n
      ensures IsProperty(e.children[j]) && Entry(e.children[j]) == Ok((fields[j].0, fields[j].1))
    {
      FieldRoundTrip(fields[j].0, fields[j].1);
    }
    DictFoldOutcome(e, n);
    DictFoldKeys(e, n);
    var m := DictFold(e, n).value;
    assert NamesUpTo(e, n) == (set i | 0 <= i < n :: fields[i].0);
    forall i | 0 <= i < n
      ensures m[fields[i].0] == fields[i].1
    {
      DictFoldLastWins(e, n, i, fields[i].0);
    }
  }

  /////////////////////////////////////////////////////////////////////////////
  // XPath selections over the reply

  /** The index of the first element of `s` tagged `tag`, or `|s|` when there is none. */
  function FirstIndex(s: seq<Element>, tag: string): (i: nat)
    ensures i <= |s|
    ensures i < |s| ==> s[i].tag == tag
    ensures forall j :: 0 <= j < i ==> s[j].tag != tag
  {
    if s == [] then 0
    else if s[0].tag == tag then 0
    else 1 + FirstIndex(s[1..], tag)
  }

  /** `root.xpath("./Object")[0]`, `None` standing for the `IndexError`. */
  function FirstObject(root: Element): Option<Element> {
    var i := FirstIndex(root.children, "Object");
    if i < |root.children| then Some(root.children[i]) else None
  }

  /** The first object is the earliest `Object` child, and there is none only when no child is one. */
  lemma FirstObjectIsEarliest(root: Element)
    ensures FirstObject(root).None? <==> forall j :: 0 <= j < |root.children| ==> root.children[j].tag != "Object"
    ensures FirstObject(root).Some? ==>
      exists i :: 0 <= i < |root.children| && root.children[i] == FirstObject(root).value &&
        root.children[i].tag == "Object" && forall j :: 0 <= j < i ==> root.children[j].tag != "Object"
  {
    var i := FirstIndex(root.children, "Object");
    if i < |root.children| {
      assert root.children[i] == FirstObject(root).value;
    }
  }

  /** A `Property` named `field` that has text. */
  predicate Selected(p: Element, field: string) {
    IsProperty(p) && p.name == Some(field) && p.text.Some?
  }

  /** `./Property[@Name='field']/text()` of one object. */
  function PropertyTexts(props: seq<Element>, field: string): seq<string> {
    if props == [] then []
    else (if Selected(props[0], field) then [props[0].text.value] else []) + PropertyTexts(props[1..], field)
  }

  /** `./Object/Property[@Name='field']/text()` over a sequence of top-level elements. */
  function ObjectTexts(objs: seq<Element>, field: string): seq<string> {
    if objs == [] then []
    else
      (if objs[0].tag == "Object" then PropertyTexts(objs[0].children, field) else []) +
      ObjectTexts(objs[1..], field)
  }

  /** `root.xpath("./Object/Property[@Name='field']/text()")`. */
  function FieldTexts(root: Element, field: string): seq<string> {
    ObjectTexts(root.children, field)
  }

  lemma {:induction false} PropertyTextsMembers(props: seq<Element>, field: string, t: string)
    ensures t in PropertyTexts(props, field) <==>
      exists j :: 0 <= j < |props| && Selected(props[j], field) && props[j].text.value == t
  {
    if props != [] {
      PropertyTextsMembers(props[1..], field, t);
      if t in PropertyTexts(props[1..], field) {
        var j :| 0 <= j < |props[1..]| && Selected(props[1..][j], field) && props[1..][j].text.value == t;
        assert props[j + 1] == props[1..][j];
      }
      forall j | 1 <= j < |props| && Selected(props[j], field) && props[j].text.value == t
        ensures t in PropertyTexts(props[1..], field)
      {
        assert props[1..][j - 1] == props[j];
      }
    }
  }

  lemma {:induction false} ObjectTextsMembers(objs: seq<Element>, field: string, t: string)
    ensures t in ObjectTexts(objs, field) <==>
      exists i, j :: 0 <= i < |objs| && objs[i].tag == "Object" && 0 <= j < |objs[i].children| &&
        Selected(objs[i].children[j], field) && objs[i].children[j].text.value == t
  {
    if objs != [] {
      ObjectTextsMembers(objs[1..], field, t);
      PropertyTextsMembers(objs[0].children, field, t);
      if t in ObjectTexts(objs[1..], field) {
        var i, j :| 0 <= i < |objs[1..]| && objs[1..][i].tag == "Object" && 0 <= j < |objs[1..][i].children| &&
          Selected(objs[1..][i].children[j], field) && objs[1..][i].children[j].text.value == t;
        assert objs[i + 1] == objs[1..][i];
      }
      forall i, j | 1 <= i < |objs| && objs[i].tag == "Object" && 0 <= j < |objs[i].children| &&
          Selected(objs[i].children[j], field) && objs[i].children[j].text.value == t
        ensures t in ObjectTexts(objs[1..], field)
      {
        assert objs[1..][i - 1] == objs[i];
      }
    }
  }

  /**
    * The selection yields exactly the texts of the `Property` children named
    * `field` of the top-level `Object` elements.
    */
  lemma FieldTextsMembers(root: Element, field: string, t: string)
    ensures t in FieldTexts(root, field) <==>
      exists i, j :: 0 <= i < |root.children| && root.children[i].tag == "Object" &&
        0 <= j < |root.children[i].children| &&
        Selected(root.children[i].children[j], field) && root.children[i].children[j].text.value == t
  {
    ObjectTextsMembers(root.children, field, t);
  }

  /////////////////////////////////////////////////////////////////////////////
  // Order and multiplicity of the selection: it lists the text of every
  // selected property once, in document order.

  /** The positions, from `j` on, of the children of one object that the selection takes. */
  ghost function PropertyPositions(props: seq<Element>, field: string, j: nat): seq<nat>
    requires j <= |props|
    decreases |props| - j
  {
    if j == |props| then []
    else (if Selected(props[j], field) then [j] else []) + PropertyPositions(props, field, j + 1)
  }

  /**
    * `ps` lists, in increasing order and each once, the positions from `j`
    * on of the selected children of `props`, and `ts` holds their texts.
    */
  predicate PositionsOf(props: seq<Element>, field: string, j: nat, ps: seq<nat>, ts: seq<string>) {
    && |ps| == |ts|
    && (forall k :: 0 <= k < |ps| ==>
          j <= ps[k] < |props| && Selected(props[ps[k]], field) && ts[k] == props[ps[k]].text.value)
    && (forall k, l :: 0 <= k < l < |ps| ==> ps[k] < ps[l])
    && (forall m :: j <= m < |props| && Selected(props[m], field) ==> m in ps)
  }

  lemma {:induction false} PropertyPositionsFacts(props: seq<Element>, field: string, j: nat)
    requires j <= |props|
    ensures PositionsOf(props, field, j, PropertyPositions(props, field, j), PropertyTexts(props[j..], field))
    decreases |props| - j
  {
    if j < |props| {
      PropertyPositionsFacts(props, field, j + 1);
      PositionsStep(props, field, j);
    } else {
      assert props[j..] == [];
    }
  }

  /** One more child, selected or not, extends the positions from `j + 1` to those from `j`. */
  lemma PositionsStep(props: seq<Element>, field: string, j: nat)
    requires j < |props|
    requires PositionsOf(props, field, j + 1, PropertyPositions(props, field, j + 1), PropertyTexts(props[j + 1..], field))
    ensures PositionsOf(props, field, j, PropertyPositions(props, field, j), PropertyTexts(props[j..], field))
  {
    PropertyTextsStep(props, field, j);
    var rest, rts := PropertyPositions(props, field, j + 1), PropertyTexts(props[j + 1..], field);
    if Selected(props[j], field) {
      assert PropertyPositions(props, field, j) == [j] + rest;
      PositionsCons(props, field, j, rest, rts);
    } else {
      assert PropertyPositions(props, field, j) == [] + rest == rest;
      assert PropertyTexts(props[j..], field) == [] + rts == rts;
      PositionsSkip(props, field, j, rest, rts);
    }
  }

  /** The selection over the children from `j` on: child `j`'s text, if selected, then the rest. */
  lemma PropertyTextsStep(props: seq<Element>, field: string, j: nat)
    requires j < |props|
    ensures PropertyTexts(props[j..], field) ==
      (if Selected(props[j], field) then [props[j].text.value] else []) + PropertyTexts(props[j + 1..], field)
  {
    assert props[j..][1..] == props[j + 1..];
    assert props[j..][0] == props[j];
  }

  /** A child at `j` that is not selected adds no position. */
  lemma PositionsSkip(props: seq<Element>, field: string, j: nat, rest: seq<nat>, rts: seq<string>)
    requires j < |props| && !Selected(props[j], field) && PositionsOf(props, field, j + 1, rest, rts)
    ensures PositionsOf(props, field, j, rest, rts)
  {
  }

  /** A selected child at `j` put in front of the positions after it. */
  lemma PositionsCons(props: seq<Element>, field: string, j: nat, rest: seq<nat>, rts: seq<string>)
    requires j < |props| && Selected(props[j], field) && PositionsOf(props, field, j + 1, rest, rts)
    ensures PositionsOf(props, field, j, [j] + rest, [props[j].text.value] + rts)
  {
    var ps, ts := [j] + rest, [props[j].text.value] + rts;
    forall k | 0 <= k < |ps|
      ensures j <= ps[k] < |props| && Selected(props[ps[k]], field) && ts[k] == props[ps[k]].text.value
    {
      if k > 0 {
        assert ps[k] == rest[k - 1] && ts[k] == rts[k - 1];
      }
    }
    forall k, l | 0 <= k < l < |ps|
      ensures ps[k] < ps[l]
    {
      assert ps[l] == rest[l - 1];
      if k > 0 {
        assert ps[k] == rest[k - 1];
      }
    }
    forall m | j <= m < |props| && Selected(props[m], field)
      ensures m in ps
    {
      if m > j {
        assert m in rest;
      }
    }
  }

  /** The pair `(i, p)` for each position `p`. */
  function Paired(i: nat, ps: seq<nat>): (r: seq<(nat, nat)>)
    ensures |r| == |ps| && forall k :: 0 <= k < |ps| ==> r[k] == (i, ps[k])
  {
    seq(|ps|, k requires 0 <= k < |ps| => (i, ps[k]))
  }

  /** Document order of (object, property) positions. */
  predicate PairBefore(p: (nat, nat), q: (nat, nat)) {
    p.0 < q.0 || (p.0 == q.0 && p.1 < q.1)
  }

  /** Property `p.1` of the top-level element `p.0` is an `Object`'s property that the selection takes. */
  predicate SelectedPair(objs: seq<Element>, field: string, p: (nat, nat)) {
    p.0 < |objs| && objs[p.0].tag == "Object" && p.1 < |objs[p.0].children| && Selected(objs[p.0].children[p.1], field)
  }

  /** The (object, property) positions, from object `i` on, that the selection takes, in document order. */
  ghost function ObjectPositions(objs: seq<Element>, field: string, i: nat): seq<(nat, nat)>
    requires i <= |objs|
    decreases |objs| - i
  {
    if i == |objs| then []
    else
      (if objs[i].tag == "Object" then Paired(i, PropertyPositions(objs[i].children, field, 0)) else []) +
      ObjectPositions(objs, field, i + 1)
  }

  /**
    * `ps` lists, in document order and each once, the selected pairs from
    * object `i` on, and `ts` holds their texts.
    */
  ghost predicate PairsOf(objs: seq<Element>, field: string, i: nat, ps: seq<(nat, nat)>, ts: seq<string>) {
    && |ps| == |ts|
    && (forall k :: 0 <= k < |ps| ==>
          i <= ps[k].0 && SelectedPair(objs, field, ps[k]) && ts[k] == objs[ps[k].0].children[ps[k].1].text.value)
    && (forall k, l :: 0 <= k < l < |ps| ==> PairBefore(ps[k], ps[l]))
    && (forall a: nat, b: nat :: i <= a && SelectedPair(objs, field, (a, b)) ==> (a, b) in ps)
  }

  /**
    * `ps` lists, in document order and each once, the selected pairs of
    * object `i` alone, and `ts` holds their texts.
    */
  ghost predicate HeadOf(objs: seq<Element>, field: string, i: nat, ps: seq<(nat, nat)>, ts: seq<string>) {
    && |ps| == |ts|
    && (forall k :: 0 <= k < |ps| ==>
          ps[k].0 == i && SelectedPair(objs, field, ps[k]) && ts[k] == objs[ps[k].0].children[ps[k].1].text.value)
    && (forall k, l :: 0 <= k < l < |ps| ==> PairBefore(ps[k], ps[l]))
    && (forall b: nat :: SelectedPair(objs, field, (i, b)) ==> (i, b) in ps)
  }

  /** One object's pairs: all at object `i`, in order, each selected property of that object once. */
  lemma HeadPairs(objs: seq<Element>, field: string, i: nat)
    requires i < |objs| && objs[i].tag == "Object"
    ensures HeadOf(objs, field, i, Paired(i, PropertyPositions(objs[i].children, field, 0)),
                   PropertyTexts(objs[i].children, field))
  {
    var props := objs[i].children;
    assert props[0..] == props;
    PropertyPositionsFacts(props, field, 0);
    var ps := PropertyPositions(props, field, 0);
    var pairs := Paired(i, ps);
    forall b: nat | SelectedPair(objs, field, (i, b))
      ensures (i, b) in pairs
    {
      assert b in ps;
      var k :| 0 <= k < |ps| && ps[k] == b;
      assert pairs[k] == (i, b);
    }
  }

  /** Object `i`'s pairs followed by those of the later objects are the pairs from object `i` on. */
  lemma PairsAppend(objs: seq<Element>, field: string, i: nat, head: seq<(nat, nat)>, hts: seq<string>,
                    rest: seq<(nat, nat)>, rts: seq<string>)
    requires HeadOf(objs, field, i, head, hts) && PairsOf(objs, field, i + 1, rest, rts)
    ensures PairsOf(objs, field, i, head + rest, hts + rts)
  {
    var ps, ts := head + rest, hts + rts;
    forall k | 0 <= k < |ps|
      ensures i <= ps[k].0 && SelectedPair(objs, field, ps[k]) && ts[k] == objs[ps[k].0].children[ps[k].1].text.value
    {
      if k < |head| {
        assert ps[k] == head[k] && ts[k] == hts[k];
      } else {
        assert ps[k] == rest[k - |head|] && ts[k] == rts[k - |head|];
      }
    }
    forall k, l | 0 <= k < l < |ps|
      ensures PairBefore(ps[k], ps[l])
    {
      if l < |head| {
        assert ps[k] == head[k] && ps[l] == head[l];
      } else if k >= |head| {
        assert ps[k] == rest[k - |head|] && ps[l] == rest[l - |head|];
      } else {
        assert ps[k] == head[k] && ps[l] == rest[l - |head|];
      }
    }
    forall a: nat, b: nat | i <= a && SelectedPair(objs, field, (a, b))
      ensures (a, b) in ps
    {
      if a == i {
        assert (a, b) in head;
      } else {
        assert (a, b) in rest;
      }
    }
  }

  lemma {:induction false} ObjectPositionsFacts(objs: seq<Element>, field: string, i: nat)
    requires i <= |objs|
    ensures PairsOf(objs, field, i, ObjectPositions(objs, field, i), ObjectTexts(objs[i..], field))
    decreases |objs| - i
  {
    if i < |objs| {
      ObjectPositionsFacts(objs, field, i + 1);
      assert objs[i..][1..] == objs[i + 1..];
      assert objs[i..][0] == objs[i];
      if objs[i].tag == "Object" {
        HeadPairs(objs, field, i);
        PairsAppend(objs, field, i, Paired(i, PropertyPositions(objs[i].children, field, 0)),
                    PropertyTexts(objs[i].children, field),
                    ObjectPositions(objs, field, i + 1), ObjectTexts(objs[i + 1..], field));
      } else {
        assert HeadOf(objs, field, i, [], []);
        PairsAppend(objs, field, i, [], [], ObjectPositions(objs, field, i + 1), ObjectTexts(objs[i + 1..], field));
        assert [] + ObjectPositions(objs, field, i + 1) == ObjectPositions(objs, field, i + 1);
        assert [] + ObjectTexts(objs[i + 1..], field) == ObjectTexts(objs[i + 1..], field);
      }
    }
  }

  /** The (object, property) positions the selection `./Object/Property[@Name='field']/text()` takes. */
  ghost function SelectedPairs(root: Element, field: string): seq<(nat, nat)> {
    ObjectPositions(root.children, field, 0)
  }

  /**
    * The selection is the texts of the selected (object, property) pairs in
    * document order, each pair once: one entry per selected property,
    * duplicates kept.
    */
  lemma FieldTextsInOrder(root: Element, field: string)
    ensures PairsOf(root.children, field, 0, SelectedPairs(root, field), FieldTexts(root, field))
  {
    assert root.children[0..] == root.children;
    ObjectPositionsFacts(root.children, field, 0);
  }

  /** The selection is empty exactly when no property of any `Object` is selected. */
  lemma FieldTextsEmpty(root: Element, field: string)
    ensures FieldTexts(root, field) == [] <==> forall p: (nat, nat) :: !SelectedPair(root.children, field, p)
  {
    FieldTextsInOrder(root, field);
    var ps := SelectedPairs(root, field);
    forall q: (nat, nat) | SelectedPair(root.children, field, q)
      ensures q in ps
    {
      assert (q.0, q.1) == q;
    }
    if ps != [] {
      assert SelectedPair(root.children, field, ps[0]);
    }
  }

  /**
    * `[0]` of the selection, as `vm_status` takes it, is the text of the
    * first selected property of the first `Object` that has one.
    */
  lemma FieldTextsFirst(root: Element, field: string)
    requires FieldTexts(root, field) != []
    ensures exists p: (nat, nat) ::
              && SelectedPair(root.children, field, p)
              && FieldTexts(root, field)[0] == root.children[p.0].children[p.1].text.value
              && forall q: (nat, nat) :: SelectedPair(root.children, field, q) ==> q == p || PairBefore(p, q)
  {
    FieldTextsInOrder(root, field);
    var ps := SelectedPairs(root, field);
    var p := ps[0];
    forall q: (nat, nat) | SelectedPair(root.children, field, q)
      ensures q == p || PairBefore(p, q)
    {
      assert (q.0, q.1) == q;
      assert q in ps;
      var l :| 0 <= l < |ps| && ps[l] == q;
      assert l == 0 || PairBefore(ps[0], ps[l]);
    }
    assert SelectedPair(root.children, field, p);
  }
}
