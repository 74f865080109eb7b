/** Transitions of `src/Transition.py`: a directed edge between two named
    states, taken when its event pattern is found in the repr of an event.
    Every pattern the game uses is either the match-all default `.*` or a
    literal text (possibly wrapped in `.*`), so a pattern is modelled as one
    of those two and matching as substring search. */
module Transitions {
  import opened Strings
  import opened Events

  datatype Pattern = MatchAll | Literal(text: string)

  datatype Transition = Transition(source: string, dest: string, pattern: Pattern)

  /** `Transition(src, dst)`: the default pattern matches everything. */
  function Unconditional(src: string, dst: string): (t: Transition)
    ensures t.source == src && t.dest == dst
    ensures forall e :: InvokedBy(t, e)
  {
    Transition(src, dst, MatchAll)
  }

  /** `get_source`. */
  function Source(t: Transition): string { t.source }

  /** `get_destination`. */
  function Destination(t: Transition): string { t.dest }

  /** `invoked_by`: the pattern is searched for (not fully matched) in the
      repr of the event. */
  predicate InvokedBy(t: Transition, e: Event)
  {
    match t.pattern
    case MatchAll => true
    case Literal(text) => Occurs(text, Repr(e))
  }

  /** The getters return the constructor's endpoints. */
  lemma GettersReturnEndpoints(src: string, dst: string, p: Pattern)
    ensures Source(Transition(src, dst, p)) == src
    ensures Destination(Transition(src, dst, p)) == dst
  {
  }

  /** A literal pattern fires exactly when its text occurs at some offset of
      the event's repr. */
  lemma InvokedIffOccursSomewhere(t: Transition, e: Event)
    requires t.pattern.Literal?
    ensures InvokedBy(t, e) <==> exists i :: OccursAt(t.pattern.text, Repr(e), i)
  {
    OccursIffSomeOffset(t.pattern.text, Repr(e));
  }

  /** A transition whose pattern is the repr of a parameterless event of
      kind `k` fires for every event of kind `k`, whatever its parameters. */
  lemma KindPatternMatchesAnyParameters(src: string, dst: string, k: string, ps: seq<Param>)
    ensures InvokedBy(Transition(src, dst, Literal(Repr(Event(k, [])))), Event(k, ps))
  {
    EmptyRenderings(k);
    ReprStartsWithType(Event(k, ps));
    PrefixOccurs(k, Repr(Event(k, ps)));
  }

  /** The transition built from the repr of a notification is not taken by
      a parameterless collision event. */
  lemma NotifyPatternRejectsCollision(src: string, dst: string)
    ensures !InvokedBy(Transition(src, dst, Literal(Repr(DefaultEvent))), Event(Collision, []))
  {
    EmptyRenderings(Notify);
    EmptyRenderings(Collision);
    OccursIffSomeOffset(Notify, Collision);
    forall i | OccursAt(Notify, Collision, i)
      ensures Collision[i] == 'n'
    {
      assert Collision[i..i + |Notify|][0] == Collision[i];
    }
  }
}
