/**
 * `fromJSON` and `toJSON`: the SAX stack machine of
 * src/libexpr/json-to-value.cc and the printer of
 * src/libexpr/value-to-json.cc.
 */
module Json {
  import opened Basics
  import opened Ordering

  /** `Uninit` is an allocated value that no event has filled yet. */
  datatype Value =
    | Null | Bool(b: bool) | Int(n: int) | Float(f: nat) | Str(s: string)
    | List(elems: seq<Value>) | Attrs(attrs: map<string, Value>) | Function | Uninit

  /** A JSON text as RFC 8259 sections 3 to 5 structure it; members keep their order and may repeat names. */
  datatype Tree =
    | JNull | JBool(b: bool) | JInt(n: int) | JFloat(f: nat) | JStr(s: string)
    | JArr(items: Items) | JObj(members: Members)

  datatype Items = INil | ICons(head: Tree, tail: Items)

  datatype Members = MNil | MCons(name: string, value: Tree, rest: Members)

  datatype Event =
    | ENull | EBool(b: bool) | EInteger(n: int) | EUnsigned(u: nat) | EFloat(f: nat) | EString(s: string)
    | EStartObject | EKey(s: string) | EEndObject | EStartArray | EEndArray

  datatype Error = NulByte | OutOfRange | ClosedToplevel | NotAnObject

  const MAX_INT: int := 0x7fff_ffff_ffff_ffff

  predicate HasNul(s: string) { '\0' in s }

  // ---------- the machine ----------

  /**
   * The states from the current one to the top. An object state shares one
   * fresh value between the keys seen since the last value (one key, in
   * well-formed input).
   */
  datatype Stack =
    | Top(v: Option<Value>)
    | Obj(attrs: map<string, Value>, pending: set<string>, parent: Stack)
    | Arr(values: seq<Value>, parent: Stack)

  /** The value shared by the pending keys is written. */
  function Fill(attrs: map<string, Value>, pending: set<string>, v: Value): map<string, Value> {
    attrs + map n | n in pending :: v
  }

  /** Fills the current slot and calls `add()`. */
  function Deliver(st: Stack, v: Value): Stack {
    match st
    case Top(_) => Top(Some(v))
    case Obj(attrs, pending, parent) => Obj(Fill(attrs, pending, v), {}, parent)
    case Arr(values, parent) => Arr(values + [v], parent)
  }

  function Step(st: Stack, ev: Event): Result<Stack, Error> {
    match ev
    case ENull => Success(Deliver(st, Null))
    case EBool(b) => Success(Deliver(st, Bool(b)))
    case EInteger(n) => Success(Deliver(st, Int(n)))
    case EUnsigned(n) => if n > MAX_INT then Failure(OutOfRange) else Success(Deliver(st, Int(n)))
    case EFloat(f) => Success(Deliver(st, Float(f)))
    case EString(s) => if HasNul(s) then Failure(NulByte) else Success(Deliver(st, Str(s)))
    case EStartObject => Success(Obj(map[], {}, st))
    case EStartArray => Success(Arr([], st))
    case EKey(s) =>
      if !st.Obj? then Failure(NotAnObject)
      else if HasNul(s) then Failure(NulByte)
      else Success(Obj(st.attrs[s := Uninit], st.pending + {s}, st.parent))
    case EEndObject => Close(st)
    case EEndArray => Close(st)
  }

  /** `resolve` and then `add` on the parent. */
  function Close(st: Stack): Result<Stack, Error> {
    match st
    case Top(_) => Failure(ClosedToplevel)
    case Obj(attrs, _, parent) => Success(Deliver(parent, Attrs(attrs)))
    case Arr(values, parent) => Success(Deliver(parent, List(values)))
  }

  function Feed(st: Stack, evs: seq<Event>): Result<Stack, Error>
    decreases evs
  {
    if evs == [] then Success(st)
    else var st' :- Step(st, evs[0]); Feed(st', evs[1..])
  }

  class JSONSax {
    var rs: Stack

    constructor ()
      ensures rs == Top(None)
    {
      rs := Top(None);
    }

    /** `rs->value(state).mk…` followed by `rs->add()`. */
    method Emit(v: Value)
      modifies this
      ensures rs == Deliver(old(rs), v)
    {
      match rs
      case Top(_) => rs := Top(Some(v));
      case Obj(attrs, pending, parent) => rs := Obj(Fill(attrs, pending, v), {}, parent);
      case Arr(values, parent) => rs := Arr(values + [v], parent);
    }

    /** The callbacks. On an error the parse is abandoned. */
    method OnEvent(ev: Event) returns (e: Option<Error>)
      modifies this
      ensures e.None? ==> Step(old(rs), ev) == Success(rs)
      ensures e.Some? ==> Step(old(rs), ev) == Failure(e.value)
    {
      e := None;
      match ev
      case ENull => Emit(Null);
      case EBool(b) => Emit(Bool(b));
      case EInteger(n) => Emit(Int(n));
      case EUnsigned(n) => if n > MAX_INT { return Some(OutOfRange); } Emit(Int(n));
      case EFloat(f) => Emit(Float(f));
      case EString(s) => if HasNul(s) { return Some(NulByte); } Emit(Str(s));
      case EStartObject => rs := Obj(map[], {}, rs);
      case EStartArray => rs := Arr([], rs);
      case EKey(s) => e := OnKey(s);
      case EEndObject => e := OnEnd();
      case EEndArray => e := OnEnd();
    }

    method OnKey(s: string) returns (e: Option<Error>)
      modifies this
      ensures e.None? ==> Step(old(rs), EKey(s)) == Success(rs)
      ensures e.Some? ==> Step(old(rs), EKey(s)) == Failure(e.value)
    {
      if !rs.Obj? { return Some(NotAnObject); }
      if HasNul(s) { return Some(NulByte); }
      rs := rs.(attrs := rs.attrs[s := Uninit], pending := rs.pending + {s});
      return None;
    }

    method OnEnd() returns (e: Option<Error>)
      modifies this
      ensures e.None? ==> Close(old(rs)) == Success(rs)
      ensures e.Some? ==> Close(old(rs)) == Failure(e.value)
    {
      if rs.Top? { return Some(ClosedToplevel); }
      var v := if rs.Obj? then Attrs(rs.attrs) else List(rs.values);
      rs := rs.parent;
      Emit(v);
      return None;
    }

    method SaxParse(evs: seq<Event>) returns (e: Option<Error>)
      modifies this
      ensures e.None? ==> Feed(old(rs), evs) == Success(rs)
      ensures e.Some? ==> Feed(old(rs), evs) == Failure(e.value)
    {
      assert evs[0..] == evs;
      for i := 0 to |evs|
        invariant Feed(old(rs), evs) == Feed(rs, evs[i..])
      {
        assert evs[i..][1..] == evs[i + 1..];
        e := OnEvent(evs[i]);
        if e.Some? { return; }
      }
      return None;
    }
  }

  // ---------- the events of a text and what they denote ----------

  function Events(t: Tree): seq<Event> {
    match t
    case JNull => [ENull]
    case JBool(b) => [EBool(b)]
    case JInt(n) => if n >= 0 then [EUnsigned(n)] else [EInteger(n)]
    case JFloat(f) => [EFloat(f)]
    case JStr(s) => [EString(s)]
    case JArr(items) => [EStartArray] + ItemEvents(items) + [EEndArray]
    case JObj(members) => [EStartObject] + MemberEvents(members) + [EEndObject]
  }

  function ItemEvents(items: Items): seq<Event> {
    match items
    case INil => []
    case ICons(t, rest) => Events(t) + ItemEvents(rest)
  }

  function MemberEvents(members: Members): seq<Event> {
    match members
    case MNil => []
    case MCons(name, t, rest) => [EKey(name)] + Events(t) + MemberEvents(rest)
  }

  /** The value of a text: the last member of a name wins; the first offending token is the error. */
  function Denote(t: Tree): Result<Value, Error> {
    match t
    case JNull => Success(Null)
    case JBool(b) => Success(Bool(b))
    case JInt(n) => if n > MAX_INT then Failure(OutOfRange) else Success(Int(n))
    case JFloat(f) => Success(Float(f))
    case JStr(s) => if HasNul(s) then Failure(NulByte) else Success(Str(s))
    case JArr(items) => var vs :- DenoteItems(items); Success(List(vs))
    case JObj(members) => var m :- DenoteMembers(map[], members); Success(Attrs(m))
  }

  function DenoteItems(items: Items): Result<seq<Value>, Error> {
    match items
    case INil => Success([])
    case ICons(t, rest) => var v :- Denote(t); var vs :- DenoteItems(rest); Success([v] + vs)
  }

  function DenoteMembers(m: map<string, Value>, members: Members): Result<map<string, Value>, Error>
    decreases members
  {
    match members
    case MNil => Success(m)
    case MCons(name, t, rest) =>
      if HasNul(name) then Failure(NulByte) else
      var v :- Denote(t);
      DenoteMembers(m[name := v], rest)
  }

  lemma {:induction false} FeedAppend(st: Stack, a: seq<Event>, b: seq<Event>)
    ensures Feed(st, a + b) == (var r := Feed(st, a); if r.Failure? then r else Feed(r.value, b))
    decreases |a|
  {
    if a == [] {
      assert a + b == b;
    } else {
      assert (a + b)[0] == a[0] && (a + b)[1..] == a[1..] + b;
      var r := Step(st, a[0]);
      if r.Success? { FeedAppend(r.value, a[1..], b); }
    }
  }

  lemma FeedOne(st: Stack, ev: Event)
    ensures Feed(st, [ev]) == Step(st, ev)
  {
    assert [ev][1..] == [];
    var r := Step(st, ev);
    if r.Success? { assert Feed(r.value, []) == r; }
  }

  /** What feeding a text does to a state. */
  function Delivered(st: Stack, r: Result<Value, Error>): Result<Stack, Error> {
    var v :- r;
    Success(Deliver(st, v))
  }

  /** From any state, the events of one text fill the current slot and leave the rest of the stack alone. */
  lemma {:induction false} FeedTree(st: Stack, t: Tree)
    ensures Feed(st, Events(t)) == Delivered(st, Denote(t))
    decreases t
  {
    match t
    case JArr(items) => FeedArray(st, items);
    case JObj(members) => FeedObject(st, members);
    case _ => FeedOne(st, Events(t)[0]);
  }

  lemma {:induction false} FeedArray(st: Stack, items: Items)
    ensures Feed(st, Events(JArr(items))) == Delivered(st, Denote(JArr(items)))
    decreases items, 1
  {
    FeedAppend(st, [EStartArray] + ItemEvents(items), [EEndArray]);
    FeedAppend(st, [EStartArray], ItemEvents(items));
    FeedOne(st, EStartArray);
    FeedItems([], st, items);
    var r := DenoteItems(items);
    if r.Success? {
      assert [] + r.value == r.value;
      FeedOne(Arr(r.value, st), EEndArray);
    }
  }

  lemma {:induction false} FeedObject(st: Stack, members: Members)
    ensures Feed(st, Events(JObj(members))) == Delivered(st, Denote(JObj(members)))
    decreases members, 1
  {
    FeedAppend(st, [EStartObject] + MemberEvents(members), [EEndObject]);
    FeedAppend(st, [EStartObject], MemberEvents(members));
    FeedOne(st, EStartObject);
    FeedMembers(map[], st, members);
    var r := DenoteMembers(map[], members);
    if r.Success? { FeedOne(Obj(r.value, {}, st), EEndObject); }
  }

  lemma {:induction false} FeedItems(values: seq<Value>, parent: Stack, items: Items)
    ensures Feed(Arr(values, parent), ItemEvents(items))
            == (var r := DenoteItems(items);
                if r.Failure? then Failure(r.error) else Success(Arr(values + r.value, parent)))
    decreases items, 0
  {
    match items
    case INil => assert values + [] == values;
    case ICons(t, rest) =>
      FeedAppend(Arr(values, parent), Events(t), ItemEvents(rest));
      FeedTree(Arr(values, parent), t);
      var v := Denote(t);
      if v.Success? {
        FeedItems(values + [v.value], parent, rest);
        var vs := DenoteItems(rest);
        if vs.Success? { assert values + [v.value] + vs.value == values + ([v.value] + vs.value); }
      }
  }

  lemma {:induction false} FeedMembers(m: map<string, Value>, parent: Stack, members: Members)
    ensures Feed(Obj(m, {}, parent), MemberEvents(members))
            == (var r := DenoteMembers(m, members);
                if r.Failure? then Failure(r.error) else Success(Obj(r.value, {}, parent)))
    decreases members, 0
  {
    match members
    case MNil =>
    case MCons(name, t, rest) =>
      var st := Obj(m, {}, parent);
      FeedAppend(st, [EKey(name)] + Events(t), MemberEvents(rest));
      FeedAppend(st, [EKey(name)], Events(t));
      FeedOne(st, EKey(name));
      if !HasNul(name) {
        var st1 := Obj(m[name := Uninit], {name}, parent);
        assert {} + {name} == {name};
        FeedTree(st1, t);
        var v := Denote(t);
        if v.Success? {
          assert Fill(m[name := Uninit], {name}, v.value) == m[name := v.value];
          FeedMembers(m[name := v.value], parent, rest);
        }
      }
  }

  // ---------- the printer ----------

  datatype PrintError = NotPrintable | CallFailed(err: nat)

  /** What calling a set's `__toString` yields. */
  type ToString = map<string, Value> -> Result<string, PrintError>

  /** The least name of a nonempty set of names. */
  lemma {:induction false} LeastExists(names: set<string>)
    requires names != {}
    ensures exists n :: n in names && forall k :: k in names && k != n ==> StrLt(n, k)
    decreases |names|
  {
    var x :| x in names;
    var rest := names - {x};
    if rest == {} {
      assert names == {x};
    } else {
      LeastExists(rest);
      var y :| y in rest && forall k :: k in rest && k != y ==> StrLt(y, k);
      StrLtOrder(x, y);
      if StrLt(x, y) {
        forall k | k in names && k != x ensures StrLt(x, k) {
          if k != y { StrLtTransitive(x, y, k); }
        }
      } else {
        assert forall k :: k in names && k != y ==> StrLt(y, k);
      }
    }
  }

  /** `lexicographicOrder`. */
  ghost function LexOrder(names: set<string>): (s: seq<string>)
    ensures forall n :: n in s <==> n in names
    ensures forall i, j :: 0 <= i < j < |s| ==> StrLt(s[i], s[j])
    decreases |names|
  {
    if names == {} then []
    else
      LeastExists(names);
      var n :| n in names && forall k :: k in names && k != n ==> StrLt(n, k);
      [n] + LexOrder(names - {n})
  }

  /** `printValueAsJSON`. */
  ghost function Print(call: ToString, v: Value): Result<Tree, PrintError>
    decreases v, 1, 0
  {
    match v
    case Null => Success(JNull)
    case Bool(b) => Success(JBool(b))
    case Int(n) => Success(JInt(n))
    case Float(f) => Success(JFloat(f))
    case Str(s) => Success(JStr(s))
    case List(xs) => var items :- PrintItems(call, v, 0); Success(JArr(items))
    case Attrs(m) =>
      if "__toString" in m then var s :- call(m); Success(JStr(s))
      else if "outPath" in m then Print(call, m["outPath"])
      else var members :- PrintMembers(call, v, LexOrder(m.Keys)); Success(JObj(members))
    case Function => Failure(NotPrintable)
    case Uninit => Failure(NotPrintable)
  }

  ghost function PrintItems(call: ToString, v: Value, i: nat): Result<Items, PrintError>
    requires v.List? && i <= |v.elems|
    decreases v, 0, |v.elems| - i
  {
    if i == |v.elems| then Success(INil)
    else
      var t :- Print(call, v.elems[i]);
      var rest :- PrintItems(call, v, i + 1);
      Success(ICons(t, rest))
  }

  ghost function PrintMembers(call: ToString, v: Value, names: seq<string>): Result<Members, PrintError>
    requires v.Attrs? && forall n :: n in names ==> n in v.attrs
    decreases v, 0, |names|
  {
    if names == [] then Success(MNil)
    else
      var t :- Print(call, v.attrs[names[0]]);
      var rest :- PrintMembers(call, v, names[1..]);
      Success(MCons(names[0], t, rest))
  }

  // ---------- the round trip ----------

  /** Null, booleans, 64-bit integers, NUL-free strings, lists, and sets that print as objects. */
  predicate Portable(v: Value) {
    match v
    case Null => true
    case Bool(_) => true
    case Int(n) => -MAX_INT - 1 <= n <= MAX_INT
    case Str(s) => !HasNul(s)
    case List(xs) => forall x :: x in xs ==> Portable(x)
    case Attrs(m) =>
      && "__toString" !in m && "outPath" !in m
      && forall n :: n in m ==> !HasNul(n) && Portable(m[n])
    case _ => false
  }

  function Restrict(m: map<string, Value>, names: seq<string>): map<string, Value>
    requires forall n :: n in names ==> n in m
  {
    map n | n in names :: m[n]
  }

  lemma RestrictCons(m: map<string, Value>, acc: map<string, Value>, names: seq<string>)
    requires names != [] && forall n :: n in names ==> n in m
    ensures acc[names[0] := m[names[0]]] + Restrict(m, names[1..]) == acc + Restrict(m, names)
  {
  }

  lemma RestrictAll(m: map<string, Value>)
    ensures Restrict(m, LexOrder(m.Keys)) == m
  {
  }

  lemma {:induction false} PrintDenotes(call: ToString, v: Value)
    requires Portable(v)
    ensures Print(call, v).Success? && Denote(Print(call, v).value) == Success(v)
    decreases v, 2, 0
  {
    match v
    case List(_) => ItemsDenote(call, v, 0);
    case Attrs(m) => SetDenotes(call, v);
    case _ =>
  }

  lemma {:induction false} ItemsDenote(call: ToString, v: Value, i: nat)
    requires v.List? && Portable(v) && i <= |v.elems|
    ensures PrintItems(call, v, i).Success? && DenoteItems(PrintItems(call, v, i).value) == Success(v.elems[i..])
    decreases v, 0, |v.elems| - i
  {
    if i == |v.elems| {
      assert v.elems[i..] == [];
    } else {
      PrintDenotes(call, v.elems[i]);
      ItemsDenote(call, v, i + 1);
      assert v.elems[i..] == [v.elems[i]] + v.elems[i + 1..];
    }
  }

  lemma {:induction false} SetDenotes(call: ToString, v: Value)
    requires v.Attrs? && Portable(v)
    ensures Print(call, v).Success? && Denote(Print(call, v).value) == Success(v)
    decreases v, 1, 0
  {
    AllMembersDenote(call, v);
  }

  lemma {:induction false} AllMembersDenote(call: ToString, v: Value)
    requires v.Attrs? && Portable(v)
    ensures var members := PrintMembers(call, v, LexOrder(v.attrs.Keys));
            members.Success? && DenoteMembers(map[], members.value) == Success(v.attrs)
    decreases v, 0
  {
    var names := LexOrder(v.attrs.Keys);
    MembersDenote(call, v, names, map[]);
    AddedToNothing(v.attrs, names);
    RestrictAll(v.attrs);
  }

  lemma AddedToNothing(m: map<string, Value>, names: seq<string>)
    requires forall n :: n in names ==> n in m
    ensures map[] + Restrict(m, names) == Restrict(m, names)
  {
  }

  lemma {:induction false} MembersDenote(call: ToString, v: Value, names: seq<string>, m: map<string, Value>)
    requires v.Attrs? && Portable(v) && forall n :: n in names ==> n in v.attrs
    ensures PrintMembers(call, v, names).Success?
    ensures DenoteMembers(m, PrintMembers(call, v, names).value) == Success(m + Restrict(v.attrs, names))
    decreases v, 0, |names|
  {
    if names == [] {
      assert m + Restrict(v.attrs, names) == m;
    } else {
      PrintDenotes(call, v.attrs[names[0]]);
      MembersDenote(call, v, names[1..], m[names[0] := v.attrs[names[0]]]);
      RestrictCons(v.attrs, m, names);
    }
  }

  /** Parsing the printed form of a value rebuilds the value. */
  lemma RoundTrip(call: ToString, v: Value)
    requires Portable(v)
    ensures Print(call, v).Success?
    ensures Feed(Top(None), Events(Print(call, v).value)) == Success(Top(Some(v)))
  {
    PrintDenotes(call, v);
    FeedTree(Top(None), Print(call, v).value);
  }

  // ---------- sets that do not print as objects, and repeated names ----------

  /** A set with a `__toString` prints as the string that yields; else one with an `outPath` as that. */
  lemma PrintSetRule(call: ToString, m: map<string, Value>)
    ensures "__toString" in m ==>
              Print(call, Attrs(m)) == if call(m).Failure? then Failure(call(m).error) else Success(JStr(call(m).value))
    ensures "__toString" !in m && "outPath" in m ==> Print(call, Attrs(m)) == Print(call, m["outPath"])
    ensures "__toString" !in m && "outPath" !in m && Print(call, Attrs(m)).Success? ==>
              Print(call, Attrs(m)).value.JObj?
  {
  }

  /** Functions cannot be printed. */
  lemma PrintFunctionRule(call: ToString)
    ensures Print(call, Function) == Failure(NotPrintable)
  {
  }

  function MemberCount(members: Members): nat {
    match members
    case MNil => 0
    case MCons(_, _, rest) => 1 + MemberCount(rest)
  }

  /** The member at a position. */
  function MemberAt(members: Members, i: nat): (string, Tree)
    requires i < MemberCount(members)
  {
    if i == 0 then (members.name, members.value) else MemberAt(members.rest, i - 1)
  }

  /** The last member of a name. */
  ghost predicate IsLastMember(members: Members, name: string, i: nat) {
    && i < MemberCount(members) && MemberAt(members, i).0 == name
    && forall j: nat :: i < j < MemberCount(members) ==> MemberAt(members, j).0 != name
  }

  lemma {:induction false} NoMember(m: map<string, Value>, members: Members, name: string)
    requires DenoteMembers(m, members).Success?
    requires forall j: nat :: j < MemberCount(members) ==> MemberAt(members, j).0 != name
    ensures name in DenoteMembers(m, members).value <==> name in m
    ensures name in m ==> DenoteMembers(m, members).value[name] == m[name]
    decreases members
  {
    if members.MCons? {
      assert MemberAt(members, 0).0 != name;
      forall j: nat | j < MemberCount(members.rest) ensures MemberAt(members.rest, j).0 != name {
        assert MemberAt(members, j + 1) == MemberAt(members.rest, j);
      }
      NoMember(m[members.name := Denote(members.value).value], members.rest, name);
    }
  }

  /** In the value of an object the last member of a name gives the name its value; other names are not there. */
  lemma {:induction false} LastMemberWins(m: map<string, Value>, members: Members, name: string, i: nat)
    requires DenoteMembers(m, members).Success? && IsLastMember(members, name, i)
    ensures name in DenoteMembers(m, members).value
    ensures Denote(MemberAt(members, i).1) == Success(DenoteMembers(m, members).value[name])
    decreases members
  {
    var v := Denote(members.value).value;
    if i == 0 {
      forall j: nat | j < MemberCount(members.rest) ensures MemberAt(members.rest, j).0 != name {
        assert MemberAt(members, j + 1) == MemberAt(members.rest, j);
      }
      NoMember(m[members.name := v], members.rest, name);
    } else {
      forall j: nat | i - 1 < j < MemberCount(members.rest) ensures MemberAt(members.rest, j).0 != name {
        assert MemberAt(members, j + 1) == MemberAt(members.rest, j);
      }
      LastMemberWins(m[members.name := v], members.rest, name, i - 1);
    }
  }

  // ---------- the order of elements ----------

  function ItemCount(items: Items): nat {
    match items
    case INil => 0
    case ICons(_, rest) => 1 + ItemCount(rest)
  }

  function ItemAt(items: Items, i: nat): Tree
    requires i < ItemCount(items)
  {
    if i == 0 then items.head else ItemAt(items.tail, i - 1)
  }

  /** The elements of a list are those of the array, in order. */
  lemma {:induction false} ItemsInOrder(items: Items, i: nat)
    requires DenoteItems(items).Success? && i < ItemCount(items)
    ensures |DenoteItems(items).value| == ItemCount(items)
    ensures Denote(ItemAt(items, i)) == Success(DenoteItems(items).value[i])
    decreases items
  {
    if items.tail.ICons? { ItemsInOrder(items.tail, if i == 0 then 0 else i - 1); }
  }

  /** What a value event does: it ends a list state, fills the last key of an object state, or is the result. */
  lemma MachineRules(values: seq<Value>, attrs: map<string, Value>, name: string, parent: Stack, v: Option<Value>,
                     b: bool)
    requires !HasNul(name)
    ensures Feed(Arr(values, parent), [EBool(b)]) == Success(Arr(values + [Bool(b)], parent))
    ensures Feed(Obj(attrs, {}, parent), [EKey(name), EBool(b)]) == Success(Obj(attrs[name := Bool(b)], {}, parent))
    ensures Feed(Top(v), [EBool(b)]) == Success(Top(Some(Bool(b))))
    ensures Feed(Top(v), [EStartArray, EEndArray]) == Success(Top(Some(List([]))))
    ensures Feed(Top(v), [EEndArray]) == Failure(ClosedToplevel)
  {
    FeedOne(Arr(values, parent), EBool(b));
    FeedOne(Top(v), EBool(b));
    FeedOne(Top(v), EEndArray);
    FeedTwo(Obj(attrs, {}, parent), EKey(name), EBool(b));
    FeedTwo(Top(v), EStartArray, EEndArray);
    assert Fill(attrs[name := Uninit], {} + {name}, Bool(b)) == attrs[name := Bool(b)];
  }

  lemma FeedTwo(st: Stack, a: Event, b: Event)
    ensures Feed(st, [a, b]) == (var r := Step(st, a); if r.Failure? then r else Step(r.value, b))
  {
    assert [a] + [b] == [a, b];
    FeedAppend(st, [a], [b]);
    FeedOne(st, a);
    var r := Step(st, a);
    if r.Success? { FeedOne(r.value, b); }
  }

  /** Texts that are rejected: strings and names with a NUL byte, and integers beyond 64 bits. */
  lemma RejectRules(s: string, n: int, t: Tree, rest: Members, m: map<string, Value>)
    ensures HasNul(s) ==> Denote(JStr(s)) == Failure(NulByte)
    ensures n > MAX_INT ==> Denote(JInt(n)) == Failure(OutOfRange)
    ensures HasNul(s) ==> DenoteMembers(m, MCons(s, t, rest)) == Failure(NulByte)
    ensures !HasNul(s) && Denote(t).Failure? ==> DenoteMembers(m, MCons(s, t, rest)) == Failure(Denote(t).error)
  {
  }
}
