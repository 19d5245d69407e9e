/** The lines of a field file, whatever its bytes are: how they are read, what their joined text tells, and
    what an append adds. */
module FieldLines {
  import opened Encoding

  predicate IsBreak(c: Byte) {
    c == NEWLINE || c == RETURN
  }

  /** What `bytes.strip` removes. */
  predicate IsSpace(c: Byte) {
    9 <= c <= 13 || c == 32
  }

  predicate Blank(l: Bytes) {
    forall i :: 0 <= i < |l| ==> IsSpace(l[i])
  }

  /** The length of the first line with its break: a line feed, a carriage return, or both in that order. */
  function FirstLine(data: Bytes): (n: nat)
    requires data != []
    ensures 0 < n <= |data|
  {
    if data[0] == NEWLINE then 1
    else if data[0] == RETURN then (if |data| > 1 && data[1] == NEWLINE then 2 else 1)
    else if |data| == 1 then 1
    else 1 + FirstLine(data[1..])
  }

  /** `data.splitlines(keepends=True)` */
  function Pieces(data: Bytes): seq<Bytes>
    decreases |data|
  {
    if data == [] then [] else [data[..FirstLine(data)]] + Pieces(data[FirstLine(data)..])
  }

  function NonBlank(ls: seq<Bytes>): seq<Bytes> {
    if ls == [] then [] else (if Blank(ls[0]) then [] else [ls[0]]) + NonBlank(ls[1..])
  }

  /** `_read_raw_lines` */
  function RawLines(data: Bytes): seq<Bytes> {
    NonBlank(Pieces(data))
  }

  function Joined(ls: seq<Bytes>): Bytes {
    if ls == [] then [] else ls[0] + Joined(ls[1..])
  }

  /** `raw_lines[start:end]`, which stops where the lines do. */
  function Slice<T>(ls: seq<T>, start: nat, end: nat): seq<T> {
    if end <= |ls| then (if start <= end then ls[start..end] else [])
    else if start <= |ls| then ls[start..] else []
  }

  // ----- what every list of raw lines looks like

  predicate OneLine(l: Bytes) {
    l != [] && FirstLine(l) == |l|
  }

  predicate Ended(l: Bytes) {
    l != [] && IsBreak(l[|l| - 1])
  }

  /** Lines that are not blank, each with its break but perhaps the last. */
  predicate Raw(ls: seq<Bytes>) {
    && (forall i :: 0 <= i < |ls| ==> OneLine(ls[i]) && !Blank(ls[i]))
    && (forall i :: 0 <= i < |ls| - 1 ==> Ended(ls[i]))
  }

  predicate Broken(ls: seq<Bytes>) {
    && (forall i :: 0 <= i < |ls| ==> OneLine(ls[i]))
    && (forall i :: 0 <= i < |ls| - 1 ==> Ended(ls[i]))
  }

  lemma {:induction false} FirstIsLine(data: Bytes)
    requires data != []
    ensures var n := FirstLine(data); OneLine(data[..n]) && (n < |data| ==> Ended(data[..n]))
  {
    if !IsBreak(data[0]) && |data| > 1 {
      FirstIsLine(data[1..]);
      var n := FirstLine(data[1..]);
      assert data[..n + 1][1..] == data[1..][..n];
    }
  }

  lemma {:induction false} PiecesBroken(data: Bytes)
    ensures Broken(Pieces(data)) && (data == [] <==> Pieces(data) == [])
    decreases |data|
  {
    if data != [] {
      FirstIsLine(data);
      PiecesBroken(data[FirstLine(data)..]);
      hide OneLine; hide Ended;
    }
  }

  lemma {:induction false} NonBlankRaw(ls: seq<Bytes>)
    requires Broken(ls)
    ensures Raw(NonBlank(ls)) && |NonBlank(ls)| <= |ls|
  {
    hide OneLine; hide Ended; hide Blank;
    if ls != [] {
      assert Broken(ls[1..]);
      NonBlankRaw(ls[1..]);
    }
  }

  lemma RawLinesRaw(data: Bytes)
    ensures Raw(RawLines(data))
  {
    PiecesBroken(data);
    NonBlankRaw(Pieces(data));
  }

  lemma SliceRaw(ls: seq<Bytes>, start: nat, end: nat)
    requires Raw(ls)
    ensures Raw(Slice(ls, start, end))
  {
    hide OneLine; hide Ended; hide Blank;
  }

  // ----- one text, one list of lines

  /** A line that is not blank does not start with a break. */
  lemma StartsInside(l: Bytes)
    requires OneLine(l) && !Blank(l)
    ensures !IsBreak(l[0])
  {}

  lemma {:induction false} LineThenRest(l: Bytes, rest: Bytes)
    requires OneLine(l) && Ended(l) && (rest == [] || rest[0] != NEWLINE)
    ensures FirstLine(l + rest) == |l|
  {
    if !IsBreak(l[0]) {
      assert (l + rest)[1..] == l[1..] + rest;
      LineThenRest(l[1..], rest);
    }
  }

  /** Splitting the joined text of raw lines gives the lines back. */
  lemma {:induction false} PiecesOfJoined(ls: seq<Bytes>)
    requires Raw(ls)
    ensures Pieces(Joined(ls)) == ls
  {
    hide FirstLine; hide Blank;
    if ls != [] {
      var rest := Joined(ls[1..]);
      PiecesOfJoined(ls[1..]);
      if |ls| > 1 {
        StartsInside(ls[1]);
        LineThenRest(ls[0], rest);
      } else {
        assert ls[0] + rest == ls[0];
      }
      assert (ls[0] + rest)[..|ls[0]|] == ls[0] && (ls[0] + rest)[|ls[0]|..] == rest;
    }
  }

  lemma {:induction false} NoneBlank(ls: seq<Bytes>)
    requires forall i :: 0 <= i < |ls| ==> !Blank(ls[i])
    ensures NonBlank(ls) == ls
  {
    if ls != [] {
      NoneBlank(ls[1..]);
    }
  }

  /** A file that holds nothing but its raw lines is read back as those lines. */
  lemma RawLinesOfJoined(ls: seq<Bytes>)
    requires Raw(ls)
    ensures RawLines(Joined(ls)) == ls
  {
    PiecesOfJoined(ls);
    NoneBlank(ls);
  }

  /** One text, one list of lines: nothing is cut off or moved unseen. */
  lemma JoinedFixesLines(a: seq<Bytes>, b: seq<Bytes>)
    requires Raw(a) && Raw(b) && Joined(a) == Joined(b)
    ensures a == b
  {
    PiecesOfJoined(a);
    PiecesOfJoined(b);
  }

  lemma {:induction false} JoinedSnoc(ls: seq<Bytes>, l: Bytes)
    ensures Joined(ls + [l]) == Joined(ls) + l
  {
    if ls == [] {
      assert [l][1..] == [] && [] + [l] == [l];
    } else {
      assert (ls + [l])[1..] == ls[1..] + [l];
      JoinedSnoc(ls[1..], l);
    }
  }

  // ----- what an append adds

  /** A line as the field's writer leaves it. */
  predicate Written(l: Bytes) {
    OneLine(l) && !Blank(l) && l[|l| - 1] == NEWLINE
  }

  /** The file ends between two lines. */
  predicate BetweenLines(data: Bytes) {
    data == [] || IsBreak(data[|data| - 1])
  }

  lemma {:induction false} FirstLineStays(data: Bytes, l: Bytes)
    requires data != [] && FirstLine(data) < |data|
    ensures FirstLine(data + l) == FirstLine(data)
  {
    if !IsBreak(data[0]) {
      assert (data + l)[1..] == data[1..] + l;
      FirstLineStays(data[1..], l);
    }
  }

  lemma {:induction false} TornGrows(data: Bytes, l: Bytes)
    requires OneLine(data) && !Ended(data) && l != []
    ensures FirstLine(data + l) == |data| + FirstLine(l)
  {
    assert (data + l)[1..] == data[1..] + l;
    if |data| > 1 {
      TornGrows(data[1..], l);
    } else {
      assert data[1..] + l == l;
    }
  }

  function Last<T>(s: seq<T>): T
    requires s != []
  {
    s[|s| - 1]
  }

  function Init<T>(s: seq<T>): seq<T>
    requires s != []
  {
    s[..|s| - 1]
  }

  /** The pieces of a file after a line was appended: one more, or the last one longer. */
  lemma {:induction false} PiecesAfter(data: Bytes, l: Bytes)
    requires Written(l)
    ensures Pieces(data) == [] <==> data == []
    ensures Pieces(data + l) == if BetweenLines(data) then Pieces(data) + [l] else Init(Pieces(data)) + [Last(Pieces(data)) + l]
    decreases |data|
  {
    hide Written; hide FirstLine; hide Pieces;
    PiecesBroken(data);
    if data == [] {
      WrittenAlone(l);
      assert data + l == l;
    } else {
      FirstIsLine(data);
      var n := FirstLine(data);
      if n < |data| {
        PiecesAfter(data[n..], l);
        PiecesAfterMore(data, l, n);
      } else {
        assert data[..n] == data;
        PiecesAfterOne(data, l);
      }
    }
  }

  lemma PiecesAfterMore(data: Bytes, l: Bytes, n: nat)
    requires data != [] && n == FirstLine(data) < |data| && Pieces(data[n..]) != []
    requires Pieces(data[n..] + l) == if BetweenLines(data[n..]) then Pieces(data[n..]) + [l] else Init(Pieces(data[n..])) + [Last(Pieces(data[n..])) + l]
    ensures Pieces(data) != []
    ensures Pieces(data + l) == if BetweenLines(data) then Pieces(data) + [l] else Init(Pieces(data)) + [Last(Pieces(data)) + l]
  {
    hide FirstLine; hide Init; hide Last;
    var rest := data[n..];
    FirstLineStays(data, l);
    assert (data + l)[..n] == data[..n] && (data + l)[n..] == rest + l;
    assert BetweenLines(data) == BetweenLines(rest);
    LaterPieces(data[..n], Pieces(rest), l);
  }

  lemma LaterPieces(first: Bytes, ps: seq<Bytes>, l: Bytes)
    requires ps != []
    ensures [first] + (ps + [l]) == ([first] + ps) + [l] && [first] + (Init(ps) + [Last(ps) + l]) == Init([first] + ps) + [Last([first] + ps) + l]
  {}

  lemma WrittenAlone(l: Bytes)
    requires Written(l)
    ensures Pieces(l) == [l] && l != []
  {
    assert l[..|l|] == l && l[|l|..] == [];
  }

  lemma PiecesAfterOne(data: Bytes, l: Bytes)
    requires OneLine(data) && Written(l)
    ensures Pieces(data) == [data] && Pieces(data + l) == if BetweenLines(data) then [data, l] else [data + l]
  {
    hide FirstLine; hide Blank;
    StartsInside(l);
    WrittenAlone(l);
    assert data[..|data|] == data && data[|data|..] == [];
    if BetweenLines(data) {
      LineThenRest(data, l);
      assert (data + l)[..|data|] == data && (data + l)[|data|..] == l;
    } else {
      TornGrows(data, l);
      var all := data + l;
      assert all[..|all|] == all && all[|all|..] == [];
    }
  }

  lemma {:induction false} NonBlankSnoc(ls: seq<Bytes>, l: Bytes)
    ensures NonBlank(ls + [l]) == NonBlank(ls) + if Blank(l) then [] else [l]
  {
    hide Blank;
    if ls == [] {
      assert [] + [l] == [l] && [l][1..] == [];
    } else {
      assert (ls + [l])[1..] == ls[1..] + [l];
      NonBlankSnoc(ls[1..], l);
    }
  }

  /** Appending to a file that was cut inside a line changes that line, or makes one with the blank it ends in. */
  lemma AppendToTorn(data: Bytes, l: Bytes)
    requires Written(l) && !BetweenLines(data)
    ensures var tail := Last(Pieces(data)); var ls := RawLines(data);
      && tail != []
      && (Blank(tail) ==> RawLines(data + l) == ls + [tail + l])
      && (!Blank(tail) ==> ls != [] && RawLines(data + l) == Init(ls) + [Last(ls) + l])
  {
    PiecesAfter(data, l);
    var ps := Pieces(data);
    PiecesBroken(data);
    NonBlankSnoc(Init(ps), Last(ps));
    assert Init(ps) + [Last(ps)] == ps;
    NonBlankSnoc(Init(ps), Last(ps) + l);
    LongerNotBlank(Last(ps), l);
  }

  lemma LongerNotBlank(tail: Bytes, l: Bytes)
    requires !Blank(l)
    ensures !Blank(tail + l)
  {
    var i :| 0 <= i < |l| && !IsSpace(l[i]);
    assert (tail + l)[|tail| + i] == l[i];
  }

  /** An append adds exactly its line when, and only when, the file ends between two lines. */
  lemma AppendAddsIff(data: Bytes, l: Bytes)
    requires Written(l)
    ensures RawLines(data + l) == RawLines(data) + [l] <==> BetweenLines(data)
    ensures BetweenLines(data + l)
  {
    hide FirstLine; hide Blank; hide Pieces;
    if BetweenLines(data) {
      PiecesAfter(data, l);
      NonBlankSnoc(Pieces(data), l);
    } else {
      AppendToTorn(data, l);
      PiecesBroken(data);
      var ls, tail := RawLines(data), Last(Pieces(data));
      assert |tail + l| > |l|;
      assert (ls + [l])[|ls|] == l;
      assert Blank(tail) ==> (ls + [tail + l])[|ls|] == tail + l;
    }
  }
}
