/** The `.seg` layout read by `src/Segment.py`: a count N of outgoing
    references, N records of five words (reference x and y, destination
    segment id, entry x and y), the width W and height H, then W columns of
    H tile ids. Every item is an unsigned 16-bit word, taken here as
    little-endian. Decoding works on the bytes already read; the file, the
    tile images and the blitting are outside the model. */
module Segments {
  import opened Options

  type byte = x: int | 0 <= x < 0x100
  type u16 = x: int | 0 <= x < 0x1_0000

  /** One word from its low and high byte. */
  function Word(lo: byte, hi: byte): u16
  {
    lo + 0x100 * hi
  }

  /** The bytes read two at a time; a trailing odd byte makes no word. */
  function ToWords(bs: seq<byte>): (ws: seq<u16>)
    ensures |ws| == |bs| / 2
    ensures forall k :: 0 <= k < |ws| ==> ws[k] == Word(bs[2 * k], bs[2 * k + 1])
    decreases |bs|
  {
    if |bs| < 2 then [] else [Word(bs[0], bs[1])] + ToWords(bs[2..])
  }

  /** The bytes of a list of words, low byte first. */
  function FromWords(ws: seq<u16>): (bs: seq<byte>)
    ensures |bs| == 2 * |ws|
    decreases |ws|
  {
    if |ws| == 0 then [] else [ws[0] % 0x100, ws[0] / 0x100] + FromWords(ws[1..])
  }

  /** Writing words out and reading them back gives the words. */
  lemma {:induction false} WordsRoundTrip(ws: seq<u16>)
    ensures ToWords(FromWords(ws)) == ws
    decreases |ws|
  {
    if |ws| > 0 {
      WordsRoundTrip(ws[1..]);
      assert FromWords(ws)[2..] == FromWords(ws[1..]);
    }
  }

  datatype Coord = Coord(x: u16, y: u16)

  /** Where a reference leads: a segment and the entry point in it. */
  datatype Dest = Dest(segment: u16, entry: Coord)

  /** One outgoing reference record. */
  datatype Reference = Reference(at: Coord, dest: Dest)

  /** What `_load_segment` keeps: the references keyed by their position
      (`segment_references`), the dimensions, the tile matrix indexed
      `[x][y]` and the set of distinct tile ids (the keys of
      `tile_list`). */
  datatype Decoded = Decoded(references: map<Coord, Dest>, width: u16, height: u16, tiles: seq<seq<u16>>, tileIds: set<u16>)

  /** The records of `5 * n` words, five words each. */
  function Records(ws: seq<u16>, n: nat): (rs: seq<Reference>)
    requires |ws| == 5 * n
    ensures |rs| == n
    decreases n
  {
    if n == 0 then []
    else [Reference(Coord(ws[0], ws[1]), Dest(ws[2], Coord(ws[3], ws[4])))] + Records(ws[5..], n - 1)
  }

  /** The dictionary the records fill in order: a later record for the
      same position replaces an earlier one. */
  function RefMap(rs: seq<Reference>): map<Coord, Dest>
    decreases |rs|
  {
    if |rs| == 0 then map[]
    else RefMap(rs[..|rs| - 1])[rs[|rs| - 1].at := rs[|rs| - 1].dest]
  }

  /** `w` columns of `h` words each, cut from a list of `w * h` words. */
  function Columns(flat: seq<u16>, w: nat, h: nat): (cs: seq<seq<u16>>)
    requires |flat| == w * h
    ensures |cs| == w && forall x :: 0 <= x < w ==> |cs[x]| == h
    decreases w
  {
    if w == 0 then [] else [flat[..h]] + Columns(flat[h..], w - 1, h)
  }

  /** The distinct tile ids of a matrix. */
  function Ids(tiles: seq<seq<u16>>): set<u16>
  {
    set x, y | 0 <= x < |tiles| && 0 <= y < |tiles[x]| :: tiles[x][y]
  }

  /** How many words the layout asks for, as far as the words present
      tell: the count first, then the records and dimensions, then the
      tiles. */
  function Needed(ws: seq<u16>): nat
  {
    if |ws| == 0 then 1
    else
      var n: nat := ws[0];
      if |ws| < 3 + 5 * n then 3 + 5 * n
      else
        var w: nat, h: nat := ws[1 + 5 * n], ws[2 + 5 * n];
        3 + 5 * n + w * h
  }

  /** `_load_segment` over the words of the file. Running out of words is
      the error `struct.unpack` raises on a short read, modelled as
      `None`. */
  function DecodeWords(ws: seq<u16>): (r: Option<Decoded>)
    ensures r.Some? <==> Needed(ws) <= |ws|
    ensures r.Some? ==> |r.value.tiles| == r.value.width
    ensures r.Some? ==> forall x :: 0 <= x < r.value.width ==> |r.value.tiles[x]| == r.value.height
  {
    if |ws| == 0 then None
    else
      var n: nat := ws[0];
      if |ws| < 3 + 5 * n then None
      else
        var w: nat, h: nat := ws[1 + 5 * n], ws[2 + 5 * n];
        if |ws| < 3 + 5 * n + w * h then None
        else
          var tiles := Columns(ws[3 + 5 * n .. 3 + 5 * n + w * h], w, h);
          Some(Decoded(RefMap(Records(ws[1 .. 1 + 5 * n], n)), w, h, tiles, Ids(tiles)))
  }

  /** `_load_segment` over the bytes of the file. */
  function Decode(bs: seq<byte>): (r: Option<Decoded>)
    ensures r.Some? <==> 2 * Needed(ToWords(bs)) <= |bs|
    ensures r.Some? ==> |r.value.tiles| == r.value.width
    ensures r.Some? ==> forall x :: 0 <= x < r.value.width ==> |r.value.tiles[x]| == r.value.height
  {
    DecodeWords(ToWords(bs))
  }

  /** A column cut from the flat list holds the words at `x * h + y`. */
  lemma {:induction false} ColumnsIndex(flat: seq<u16>, w: nat, h: nat, x: nat, y: nat)
    requires |flat| == w * h && x < w && y < h
    ensures x * h + y < |flat| && Columns(flat, w, h)[x][y] == flat[x * h + y]
    decreases w
  {
    if x > 0 {
      ColumnsIndex(flat[h..], w - 1, h, x - 1, y);
      assert (x - 1) * h + y + h == x * h + y;
    }
  }

  /** Tile `[x][y]` is word `3 + 5N + x*H + y` of the file: columns are
      stored one after the other. */
  lemma TileIsWordAt(ws: seq<u16>, x: nat, y: nat)
    requires DecodeWords(ws).Some?
    requires x < DecodeWords(ws).value.width && y < DecodeWords(ws).value.height
    ensures 3 + 5 * ws[0] + x * DecodeWords(ws).value.height + y < |ws|
    ensures DecodeWords(ws).value.tiles[x][y] == ws[3 + 5 * ws[0] + x * DecodeWords(ws).value.height + y]
  {
    DecodedTiles(ws);
    var d := DecodeWords(ws).value;
    ColumnsAt(ws, 3 + 5 * (ws[0] as int), d.width, d.height, x, y);
  }

  /** Decoded tiles are the columns cut from the words after the header. */
  lemma DecodedTiles(ws: seq<u16>)
    requires DecodeWords(ws).Some?
    ensures |ws| > 0 && |ws| >= 3 + 5 * (ws[0] as int)
    ensures var d := DecodeWords(ws).value; var o := 3 + 5 * (ws[0] as int);
      d.width == ws[o - 2] && d.height == ws[o - 1]
      && o + d.width * d.height <= |ws|
      && d.tiles == Columns(ws[o .. o + d.width * d.height], d.width, d.height)
  {
  }

  /** The same for columns cut from the words starting at `o`. */
  lemma ColumnsAt(ws: seq<u16>, o: nat, w: nat, h: nat, x: nat, y: nat)
    requires o + w * h <= |ws| && x < w && y < h
    ensures o + x * h + y < |ws|
    ensures Columns(ws[o .. o + w * h], w, h)[x][y] == ws[o + x * h + y]
  {
    ColumnsIndex(ws[o .. o + w * h], w, h, x, y);
  }

  /** A position read more than once keeps the destination of its last
      record. */
  lemma {:induction false} RefMapLastWins(rs: seq<Reference>, i: nat)
    requires i < |rs|
    requires forall j :: i < j < |rs| ==> rs[j].at != rs[i].at
    ensures rs[i].at in RefMap(rs) && RefMap(rs)[rs[i].at] == rs[i].dest
    decreases |rs|
  {
    if i < |rs| - 1 {
      RefMapLastWins(rs[..|rs| - 1], i);
    }
  }

  /** The dictionary has an entry exactly for the positions of the
      records. */
  lemma {:induction false} RefMapKeys(rs: seq<Reference>)
    ensures forall c :: c in RefMap(rs) <==> exists i :: 0 <= i < |rs| && rs[i].at == c
    decreases |rs|
  {
    if |rs| > 0 {
      var front := rs[..|rs| - 1];
      RefMapKeys(front);
      forall c | c in RefMap(rs)
        ensures exists i :: 0 <= i < |rs| && rs[i].at == c
      {
        if c != rs[|rs| - 1].at {
          assert c in RefMap(front);
          var i :| 0 <= i < |front| && front[i].at == c;
          assert rs[i] == front[i];
        }
      }
      forall c, i | 0 <= i < |rs| && rs[i].at == c
        ensures c in RefMap(rs)
      {
        if i < |rs| - 1 {
          assert front[i] == rs[i];
        }
      }
    }
  }

  /** The tile ids are exactly the ids found in the matrix. */
  lemma IdsAreTheTiles(tiles: seq<seq<u16>>, t: u16)
    ensures t in Ids(tiles) <==> exists x, y :: 0 <= x < |tiles| && 0 <= y < |tiles[x]| && tiles[x][y] == t
  {
  }

  /** The items of a segment file, in the order they are written. */
  datatype Layout = Layout(refs: seq<Reference>, width: u16, height: u16, tiles: seq<seq<u16>>)

  /** A layout that can be written: at most 65535 references, and a
      matrix of `width` columns of `height` tiles each. */
  predicate Writable(l: Layout)
  {
    |l.refs| < 0x1_0000 && |l.tiles| == l.width && forall x :: 0 <= x < |l.tiles| ==> |l.tiles[x]| == l.height
  }

  /** The five words of each record. */
  function RecordWords(rs: seq<Reference>): (ws: seq<u16>)
    ensures |ws| == 5 * |rs|
    decreases |rs|
  {
    if |rs| == 0 then []
    else [rs[0].at.x, rs[0].at.y, rs[0].dest.segment, rs[0].dest.entry.x, rs[0].dest.entry.y] + RecordWords(rs[1..])
  }

  /** The columns one after the other. */
  function Flatten(cs: seq<seq<u16>>): seq<u16>
    decreases |cs|
  {
    if |cs| == 0 then [] else cs[0] + Flatten(cs[1..])
  }

  /** The words of a layout. */
  function LayoutWords(l: Layout): seq<u16>
    requires Writable(l)
  {
    [|l.refs| as u16] + RecordWords(l.refs) + [l.width, l.height] + Flatten(l.tiles)
  }

  /** The file of a layout. */
  function Encode(l: Layout): seq<byte>
    requires Writable(l)
  {
    FromWords(LayoutWords(l))
  }

  lemma {:induction false} RecordsRoundTrip(rs: seq<Reference>)
    ensures Records(RecordWords(rs), |rs|) == rs
    decreases |rs|
  {
    if |rs| > 0 {
      RecordsRoundTrip(rs[1..]);
      assert RecordWords(rs)[5..] == RecordWords(rs[1..]);
    }
  }

  lemma {:induction false} FlattenColumns(cs: seq<seq<u16>>, h: nat)
    requires forall x :: 0 <= x < |cs| ==> |cs[x]| == h
    ensures |Flatten(cs)| == |cs| * h
    ensures Columns(Flatten(cs), |cs|, h) == cs
    decreases |cs|
  {
    if |cs| > 0 {
      FlattenColumns(cs[1..], h);
      assert Flatten(cs)[..h] == cs[0];
      assert Flatten(cs)[h..] == Flatten(cs[1..]);
    }
  }

  /** Decoding the file of a writable layout gives back its dimensions and
      tiles, and the references as the dictionary its records fill. */
  lemma DecodeEncode(l: Layout)
    requires Writable(l)
    ensures Decode(Encode(l)) == Some(Decoded(RefMap(l.refs), l.width, l.height, l.tiles, Ids(l.tiles)))
  {
    WordsRoundTrip(LayoutWords(l));
    DecodeLayoutWords(l);
  }

  /** The same over words. */
  lemma DecodeLayoutWords(l: Layout)
    requires Writable(l)
    ensures DecodeWords(LayoutWords(l)) == Some(Decoded(RefMap(l.refs), l.width, l.height, l.tiles, Ids(l.tiles)))
  {
    FlattenColumns(l.tiles, l.height);
    RecordsRoundTrip(l.refs);
    DecodeParts(|l.refs|, RecordWords(l.refs), l.width, l.height, Flatten(l.tiles));
  }

  /** Words made of a count, its records, the dimensions and exactly
      enough tiles decode to those parts. */
  lemma DecodeParts(n: u16, rw: seq<u16>, w: u16, h: u16, fl: seq<u16>)
    requires |rw| == 5 * n && |fl| == w * h
    ensures DecodeWords([n] + rw + [w, h] + fl)
      == Some(Decoded(RefMap(Records(rw, n)), w, h, Columns(fl, w, h), Ids(Columns(fl, w, h))))
  {
    var ws := [n] + rw + [w, h] + fl;
    var o := 3 + 5 * (n as int);
    assert ws[0] == n;
    assert ws[1 .. o - 2] == rw;
    assert ws[o - 2] == w && ws[o - 1] == h;
    assert ws[o .. o + w * h] == fl;
    DecodeHeader(ws, n, rw, w, h, fl);
  }

  /** Words holding a count, its records, the dimensions and enough
      tiles decode to exactly those parts. */
  lemma DecodeHeader(ws: seq<u16>, n: u16, rw: seq<u16>, w: u16, h: u16, fl: seq<u16>)
    requires |ws| >= 3 + 5 * (n as int) + (w as int) * (h as int) && ws[0] == n
    requires ws[1 .. 1 + 5 * (n as int)] == rw && ws[1 + 5 * (n as int)] == w && ws[2 + 5 * (n as int)] == h
    requires ws[3 + 5 * (n as int) .. 3 + 5 * (n as int) + (w as int) * (h as int)] == fl
    ensures DecodeWords(ws) == Some(Decoded(RefMap(Records(rw, n)), w, h, Columns(fl, w, h), Ids(Columns(fl, w, h))))
  {
  }

  /** A layout's words are exactly as many as it asks for. */
  lemma LayoutNeedsAll(l: Layout)
    requires Writable(l)
    ensures Needed(LayoutWords(l)) == |LayoutWords(l)|
  {
    var ws := LayoutWords(l);
    var n := |l.refs|;
    FlattenColumns(l.tiles, l.height);
    assert ws[0] == n;
    assert ws[1 + 5 * n] == l.width && ws[2 + 5 * n] == l.height;
  }

  /** Words that ask for exactly what they hold: any proper prefix asks
      for more than it holds. */
  lemma PrefixNeedsMore(ws: seq<u16>, m: nat)
    requires Needed(ws) == |ws| && m < |ws|
    ensures Needed(ws[..m]) > m
  {
    if m > 0 {
      assert ws[..m][0] == ws[0];
      var n: nat := ws[0];
      if m >= 3 + 5 * n {
        assert ws[..m][1 + 5 * n] == ws[1 + 5 * n] && ws[..m][2 + 5 * n] == ws[2 + 5 * n];
      }
    }
  }

  /** A file cut short anywhere does not decode. */
  lemma ShortFileFails(l: Layout, k: nat)
    requires Writable(l)
    requires k < |Encode(l)|
    ensures Decode(Encode(l)[..k]).None?
  {
    var ws := LayoutWords(l);
    WordsRoundTrip(ws);
    LayoutNeedsAll(l);
    ToWordsPrefix(Encode(l), k);
    PrefixNeedsMore(ws, k / 2);
  }

  /** The words of a prefix are a prefix of the words. */
  lemma {:induction false} ToWordsPrefix(bs: seq<byte>, k: nat)
    requires k <= |bs|
    ensures ToWords(bs[..k]) == ToWords(bs)[..k / 2]
    decreases |bs|
  {
    if k >= 2 {
      ToWordsPrefix(bs[2..], k - 2);
      assert bs[..k][2..] == bs[2..][..k - 2];
    }
  }

  /** `_tile_tangible`: a tile with an even id is solid. */
  predicate Tangible(id: u16)
  {
    id % 2 == 0
  }

  /** `get_collisionmap`: the matrix of tangibility, of the tile matrix's
      shape. */
  function CollisionMap(d: Decoded): (cm: seq<seq<bool>>)
    ensures |cm| == |d.tiles|
    ensures forall x :: 0 <= x < |cm| ==> |cm[x]| == |d.tiles[x]|
    ensures forall x, y :: 0 <= x < |cm| && 0 <= y < |cm[x]| ==> (cm[x][y] <==> d.tiles[x][y] % 2 == 0)
  {
    seq(|d.tiles|, x requires 0 <= x < |d.tiles| => seq(|d.tiles[x]|, y requires 0 <= y < |d.tiles[x]| => Tangible(d.tiles[x][y])))
  }

  /** A tile position, as the entry point of a segment. */
  datatype Point = Point(x: int, y: int)

  /** A loaded segment: its id, the point it was entered at (`None` only
      when a caller passes `None` explicitly; the constructor's default is
      the origin) and what its file holds. */
  datatype Segment = Segment(id: int, entryPoint: Option<Point>, data: Decoded)

  /** `Segment(segment_id, entry_point)` over the bytes of the segment's
      file: no segment when the file is too short. */
  function NewSegment(id: int, entryPoint: Option<Point>, file: seq<byte>): (r: Option<Segment>)
    ensures r.Some? <==> Decode(file).Some?
    ensures r.Some? ==> r.value.id == id && r.value.entryPoint == entryPoint && r.value.data == Decode(file).value
  {
    match Decode(file)
    case None => None
    case Some(d) => Some(Segment(id, entryPoint, d))
  }

  /** `Segment(segment_id)`: the entry point defaults to the origin tile. */
  function NewDefaultSegment(id: int, file: seq<byte>): (r: Option<Segment>)
    ensures r.Some? <==> Decode(file).Some?
    ensures r.Some? ==> r.value.id == id && r.value.entryPoint == Some(Point(0, 0)) && r.value.data == Decode(file).value
  {
    NewSegment(id, Some(Point(0, 0)), file)
  }
}
