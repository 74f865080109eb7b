/** The level of `src/Level.py`: the segments of one connected area keyed
    by id, and the root segment, the last one added that has an entry
    point. */
module Levels {
  import opened Options
  import opened Segments

  datatype Level = Level(root: Option<Segment>, segments: map<int, Segment>)

  /** `Level()`: no root and no segments. */
  const EmptyLevel := Level(None, map[])

  /** `add_segment`: the segment is stored under its id, replacing any
      segment with that id; it becomes the root exactly when it has an
      entry point. */
  function AddSegment(l: Level, s: Segment): (r: Level)
    ensures s.id in r.segments && r.segments[s.id] == s
    ensures r.segments.Keys == l.segments.Keys + {s.id}
    ensures forall id :: id in l.segments && id != s.id ==> r.segments[id] == l.segments[id]
    ensures s.entryPoint.Some? ==> r.root == Some(s)
    ensures s.entryPoint.None? ==> r.root == l.root
  {
    Level(if s.entryPoint.Some? then Some(s) else l.root, l.segments[s.id := s])
  }

  /** A segment built with the default entry point has one, so adding it
      always makes it the root. */
  lemma DefaultSegmentBecomesRoot(l: Level, id: int, file: seq<byte>)
    requires NewDefaultSegment(id, file).Some?
    ensures AddSegment(l, NewDefaultSegment(id, file).value).root == Some(NewDefaultSegment(id, file).value)
    ensures AddSegment(l, NewDefaultSegment(id, file).value).root.value.entryPoint == Some(Point(0, 0))
  {
  }

  /** Adding segments one after the other. */
  function AddSegments(l: Level, ss: seq<Segment>): Level
    decreases |ss|
  {
    if |ss| == 0 then l else AddSegments(AddSegment(l, ss[0]), ss[1..])
  }

  /** The last segment of a list that has an entry point, if any. */
  function LastEntered(ss: seq<Segment>): (r: Option<Segment>)
    ensures r.Some? ==> r.value.entryPoint.Some?
    decreases |ss|
  {
    if |ss| == 0 then None
    else if ss[|ss| - 1].entryPoint.Some? then Some(ss[|ss| - 1])
    else LastEntered(ss[..|ss| - 1])
  }

  /** After adding a list of segments, the root is the last of them with
      an entry point, or the old root when none has one. */
  lemma {:induction false} RootIsLastEntered(l: Level, ss: seq<Segment>)
    ensures AddSegments(l, ss).root == if LastEntered(ss).Some? then LastEntered(ss) else l.root
    decreases |ss|
  {
    if |ss| > 0 {
      var l' := AddSegment(l, ss[0]);
      RootIsLastEntered(l', ss[1..]);
      LastEnteredFront(ss);
    }
  }

  /** The last entered segment of a list, seen from its head. */
  lemma {:induction false} LastEnteredFront(ss: seq<Segment>)
    requires |ss| > 0
    ensures LastEntered(ss) == if LastEntered(ss[1..]).Some? then LastEntered(ss[1..])
                               else if ss[0].entryPoint.Some? then Some(ss[0]) else None
    decreases |ss|
  {
    if |ss| > 1 {
      assert ss[1..][..|ss[1..]| - 1] == ss[..|ss| - 1][1..];
      LastEnteredFront(ss[..|ss| - 1]);
    }
  }

  /** A level built from nothing has a root exactly when some added
      segment has an entry point, and the root then has one. */
  lemma RootHasEntryPoint(ss: seq<Segment>)
    ensures AddSegments(EmptyLevel, ss).root.Some? <==> exists i :: 0 <= i < |ss| && ss[i].entryPoint.Some?
    ensures AddSegments(EmptyLevel, ss).root.Some? ==> AddSegments(EmptyLevel, ss).root.value.entryPoint.Some?
  {
    RootIsLastEntered(EmptyLevel, ss);
    LastEnteredExists(ss);
  }

  lemma {:induction false} LastEnteredExists(ss: seq<Segment>)
    ensures LastEntered(ss).Some? <==> exists i :: 0 <= i < |ss| && ss[i].entryPoint.Some?
    decreases |ss|
  {
    if |ss| > 0 {
      LastEnteredExists(ss[..|ss| - 1]);
      if LastEntered(ss[..|ss| - 1]).Some? {
        var i :| 0 <= i < |ss| - 1 && ss[..|ss| - 1][i].entryPoint.Some?;
        assert ss[i] == ss[..|ss| - 1][i];
      }
      if exists i :: 0 <= i < |ss| && ss[i].entryPoint.Some? {
        var i :| 0 <= i < |ss| && ss[i].entryPoint.Some?;
        if i < |ss| - 1 {
          assert ss[..|ss| - 1][i] == ss[i];
        }
      }
    }
  }
}
