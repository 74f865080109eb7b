/** Events: a classification string plus named parameters, with the two
    string renderings of `src/Event.py`. The repr form is what transitions
    search with their patterns and what the player's graph uses as edge keys. */
module Events {
  import opened Strings

  /** `EventType` constants. */
  const Notify: string := "notify"
  const Timeout: string := "timeout"
  const Collision: string := "collision"
  /** Key events used by the player configuration; `src/Event.py` does not
      define them, so their spelling here is this model's choice. */
  const KeyDown: string := "keydown"
  const KeyUp: string := "keyup"

  /** Parameter values as they appear in events: numbers, strings, `None`,
      opaque game objects (rendered by a fixed label) and 2-tuples. */
  datatype Value =
    | Int(i: int)
    | Str(s: string)
    | Null
    | Ref(tag: string)
    | Pair(first: Value, second: Value)

  /** One `name: value` entry of the parameter dictionary. */
  datatype Param = Param(name: string, value: Value)

  /** An event; `params` keeps the iteration order of the parameter
      dictionary, which fixes the order of the pieces in its renderings. */
  datatype Event = Event(kind: string, params: seq<Param>)

  /** `Event()`: a notification without parameters. */
  const DefaultEvent := Event(Notify, [])

  /** `repr` of a parameter value (strings are assumed free of quotes and
      escapes). */
  function ReprValue(v: Value): string
  {
    match v
    case Int(i) => IntToString(i)
    case Str(s) => "'" + s + "'"
    case Null => "None"
    case Ref(tag) => tag
    case Pair(a, b) => "(" + ReprValue(a) + ", " + ReprValue(b) + ")"
  }

  /** The parameter dictionary the entries describe; a later entry with the
      same name replaces an earlier one, as in a dictionary display. */
  function ParamMap(ps: seq<Param>): map<string, Value>
    decreases |ps|
  {
    if |ps| == 0 then map[]
    else ParamMap(ps[..|ps| - 1])[ps[|ps| - 1].name := ps[|ps| - 1].value]
  }

  /** `get_type`. */
  function Type(e: Event): string { e.kind }

  /** `get_parameters`. */
  function Parameters(e: Event): map<string, Value> { ParamMap(e.params) }

  /** `__eq__`: same type and same parameter dictionary. */
  predicate Same(a: Event, b: Event)
  {
    Type(a) == Type(b) && Parameters(a) == Parameters(b)
  }

  /** The `,name:value` pieces of `repr`, in parameter order. */
  function ReprParams(ps: seq<Param>): string
    decreases |ps|
  {
    if |ps| == 0 then ""
    else ReprParams(ps[..|ps| - 1]) + "," + ps[|ps| - 1].name + ":" + ReprValue(ps[|ps| - 1].value)
  }

  /** `__repr__`: `type,name:value,...`. */
  function Repr(e: Event): string
  {
    e.kind + ReprParams(e.params)
  }

  /** The ` name->value` pieces of `str`, in parameter order. */
  function StrParams(ps: seq<Param>): string
    decreases |ps|
  {
    if |ps| == 0 then ""
    else StrParams(ps[..|ps| - 1]) + " " + ps[|ps| - 1].name + "->" + ReprValue(ps[|ps| - 1].value)
  }

  /** `__str__`: `[type]( name->value ... )`. */
  function Show(e: Event): string
  {
    "[" + e.kind + "](" + StrParams(e.params) + " )"
  }

  /** The default event is a notification with an empty dictionary, whose
      repr is just its type and whose str is `[notify]( )`. */
  lemma DefaultEventShape()
    ensures Type(DefaultEvent) == Notify && Parameters(DefaultEvent) == map[]
    ensures Repr(DefaultEvent) == Notify
    ensures Show(DefaultEvent) == "[notify]( )"
  {
  }

  /** Without parameters, repr is exactly the type string and str is
      `[type]( )`. */
  lemma EmptyRenderings(k: string)
    ensures Repr(Event(k, [])) == k
    ensures Show(Event(k, [])) == "[" + k + "]( )"
  {
  }

  /** The repr always starts with the event type, whatever the parameters. */
  lemma ReprStartsWithType(e: Event)
    ensures HasPrefix(e.kind, Repr(e))
  {
    assert Repr(e)[..|e.kind|] == e.kind;
  }

  /** Each parameter contributes its piece right after the pieces of the
      parameters before it, in both renderings. */
  lemma RenderingsAppendPiece(k: string, ps: seq<Param>, p: Param)
    ensures Repr(Event(k, ps + [p])) == Repr(Event(k, ps)) + "," + p.name + ":" + ReprValue(p.value)
    ensures Show(Event(k, ps + [p]))
         == "[" + k + "](" + StrParams(ps) + " " + p.name + "->" + ReprValue(p.value) + " )"
  {
    assert (ps + [p])[..|ps + [p]| - 1] == ps;
  }

  /** The two-parameter event of the event tests renders with its pieces in
      dictionary order. */
  lemma TwoParameterRenderings()
    ensures Repr(Event(Notify, [Param("two", Int(2)), Param("one", Int(1))])) == "notify,two:2,one:1"
    ensures Show(Event(Notify, [Param("two", Int(2)), Param("one", Int(1))])) == "[notify]( two->2 one->1 )"
  {
    TwoParameterRepr();
    TwoParameterShow();
  }

  /** Its `repr`. */
  lemma TwoParameterRepr()
    ensures Repr(Event(Notify, [Param("two", Int(2)), Param("one", Int(1))])) == "notify,two:2,one:1"
  {
    TwoParameterPieces(true);
  }

  /** Its `str`. */
  lemma TwoParameterShow()
    ensures Show(Event(Notify, [Param("two", Int(2)), Param("one", Int(1))])) == "[notify]( two->2 one->1 )"
  {
    TwoParameterPieces(false);
  }

  /** The `repr` pieces (when `repr` holds) or the `str` pieces (otherwise)
      of the two parameters, one after the other. */
  lemma TwoParameterPieces(repr: bool)
    ensures repr ==> ReprParams([Param("two", Int(2)), Param("one", Int(1))]) == ",two:2,one:1"
    ensures !repr ==> StrParams([Param("two", Int(2)), Param("one", Int(1))]) == " two->2 one->1"
  {
    var ps := [Param("two", Int(2)), Param("one", Int(1))];
    assert ReprValue(Int(2)) == "2" && ReprValue(Int(1)) == "1" by {
      assert IntToString(2) == "2" && IntToString(1) == "1";
    }
    assert ps[..1] == [Param("two", Int(2))] && ps[..1][..0] == [];
    if repr {
      assert ReprParams(ps[..1]) == ",two:2";
    } else {
      assert StrParams(ps[..1]) == " two->2";
    }
  }

  /** Parameter names are pairwise distinct (a dictionary's keys). */
  predicate DistinctNames(ps: seq<Param>)
  {
    forall i, j :: 0 <= i < j < |ps| ==> ps[i].name != ps[j].name
  }

  /** The getters give back what the constructor was given: every entry is
      in the parameter dictionary with its value, and nothing else is. */
  lemma {:induction false} GettersReturnArguments(k: string, ps: seq<Param>)
    requires DistinctNames(ps)
    ensures Type(Event(k, ps)) == k
    ensures forall i :: 0 <= i < |ps| ==> ps[i].name in Parameters(Event(k, ps)) && Parameters(Event(k, ps))[ps[i].name] == ps[i].value
    ensures forall n :: n in Parameters(Event(k, ps)) ==> exists i :: 0 <= i < |ps| && ps[i].name == n
    decreases |ps|
  {
    if |ps| > 0 {
      var init := ps[..|ps| - 1];
      GettersReturnArguments(k, init);
      forall i | 0 <= i < |ps|
        ensures ps[i].name in ParamMap(ps) && ParamMap(ps)[ps[i].name] == ps[i].value
      {
        if i < |ps| - 1 {
          assert init[i] == ps[i];
        }
      }
      forall n | n in ParamMap(ps)
        ensures exists i :: 0 <= i < |ps| && ps[i].name == n
      {
        if n != ps[|ps| - 1].name {
          var i :| 0 <= i < |init| && init[i].name == n;
          assert ps[i].name == n;
        }
      }
    }
  }

  /** The dictionary of a longer entry list is the shorter one's dictionary
      updated with the extra entries. */
  function Overlay(m: map<string, Value>, ps: seq<Param>): map<string, Value>
    decreases |ps|
  {
    if |ps| == 0 then m
    else Overlay(m, ps[..|ps| - 1])[ps[|ps| - 1].name := ps[|ps| - 1].value]
  }

  lemma {:induction false} ParamMapConcat(a: seq<Param>, b: seq<Param>)
    ensures ParamMap(a + b) == Overlay(ParamMap(a), b)
    decreases |b|
  {
    if |b| == 0 {
      assert a + b == a;
    } else {
      ParamMapConcat(a, b[..|b| - 1]);
      assert (a + b)[..|a + b| - 1] == a + b[..|b| - 1];
    }
  }

  /** Equality does not depend on the order of entries with different names:
      swapping two neighbouring entries gives an equal event. */
  lemma SameIgnoresOrder(k: string, pre: seq<Param>, p: Param, q: Param, post: seq<Param>)
    requires p.name != q.name
    ensures Same(Event(k, pre + [p, q] + post), Event(k, pre + [q, p] + post))
  {
    var a := pre + [p, q];
    var b := pre + [q, p];
    assert a[..|a| - 1] == pre + [p] && (pre + [p])[..|pre|] == pre;
    assert b[..|b| - 1] == pre + [q] && (pre + [q])[..|pre|] == pre;
    assert ParamMap(a) == ParamMap(b);
    ParamMapConcat(a, post);
    ParamMapConcat(b, post);
  }

  /** Equality tells the default event from the two-parameter test event. */
  lemma DefaultDiffersFromTestEvent()
    ensures Same(DefaultEvent, DefaultEvent)
    ensures !Same(DefaultEvent, Event(Notify, [Param("one", Int(1)), Param("two", Int(2))]))
  {
    var ps := [Param("one", Int(1)), Param("two", Int(2))];
    assert ps[..1] == [Param("one", Int(1))];
    assert "two" in ParamMap(ps);
  }
}
