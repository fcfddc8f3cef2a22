/** The Socket.IO CORS setting of integrated_final/cowrie_dashboard.py: the
    configured `CORS_ALLOWED_ORIGINS` text, a comma separated list. */
module Cors {
  import opened Wrappers
  import opened Text

  /** An entry of the parsed list: not empty, no white space at either end,
      no comma. */
  predicate IsOrigin(o: string) {
    o != [] && !IsSpace(o[0]) && !IsSpace(o[|o| - 1]) && ',' !in o
  }

  /** A piece free of commas strips to an entry, or to nothing. */
  lemma StripPiece(p: string)
    requires ',' !in p
    ensures Strip(p) == [] || IsOrigin(Strip(p))
  {
    var i, j :| 0 <= i <= j <= |p| && Strip(p) == p[i..j];
    SliceFree(p, i, j, ',');
  }

  /** A character missing from a string is missing from its slices. */
  lemma SliceFree(p: string, i: int, j: int, c: char)
    requires 0 <= i <= j <= |p| && c !in p
    ensures c !in p[i..j]
  {
    forall k | 0 <= k < j - i ensures p[i..j][k] != c {
      assert p[i..j][k] == p[i + k];
    }
  }

  /** `[o.strip() for o in pieces if o.strip()]` */
  function Origins(pieces: seq<string>): (r: seq<string>)
    requires forall i :: 0 <= i < |pieces| ==> ',' !in pieces[i]
    ensures |r| <= |pieces|
    ensures forall i :: 0 <= i < |r| ==> IsOrigin(r[i])
    decreases |pieces|
  {
    if pieces == [] then []
    else
      var o := Strip(pieces[0]);
      StripPiece(pieces[0]);
      var tail := pieces[1..];
      assert forall i :: 0 <= i < |tail| ==> ',' !in tail[i] by {
        forall i | 0 <= i < |tail| ensures ',' !in tail[i] {
          assert tail[i] == pieces[i + 1];
        }
      }
      var rest := Origins(tail);
      if o != [] then ConsOrigin(o, rest); [o] + rest else rest
  }

  lemma ConsOrigin(o: string, rest: seq<string>)
    requires IsOrigin(o) && forall i :: 0 <= i < |rest| ==> IsOrigin(rest[i])
    ensures forall i :: 0 <= i < |[o] + rest| ==> IsOrigin(([o] + rest)[i])
  {
    forall i | 0 <= i < |[o] + rest| ensures IsOrigin(([o] + rest)[i]) {
      if i > 0 {
        assert ([o] + rest)[i] == rest[i - 1];
      }
    }
  }

  /** `cors_list`: the non-empty stripped pieces of the text between commas;
      none for an empty text. */
  function ParseCorsOrigins(s: string): (r: seq<string>)
    ensures forall i :: 0 <= i < |r| ==> IsOrigin(r[i])
  {
    if s == "" then [] else Origins(Split(s, ','))
  }

  /** `cors_allowed_origins`: `None`, same origin only, when no origin is
      listed. */
  function AllowedOrigins(s: string): (r: Option<seq<string>>)
    ensures r.None? <==> ParseCorsOrigins(s) == []
    ensures r.Some? ==> r.value == ParseCorsOrigins(s)
  {
    var origins := ParseCorsOrigins(s);
    if origins == [] then None else Some(origins)
  }

  /** Entries already in parsed form are kept as they are, in order. */
  lemma {:induction false} OriginsOfOrigins(xs: seq<string>)
    requires forall i :: 0 <= i < |xs| ==> IsOrigin(xs[i])
    ensures forall i :: 0 <= i < |xs| ==> ',' !in xs[i]
    ensures Origins(xs) == xs
    decreases |xs|
  {
    if xs != [] {
      OriginsOfOrigins(xs[1..]);
      assert [xs[0]] + xs[1..] == xs;
    }
  }

  /** Parsing undoes `','.join(origins)` for a list of entries in parsed
      form, the empty list included. */
  lemma ParseJoined(xs: seq<string>)
    requires forall i :: 0 <= i < |xs| ==> IsOrigin(xs[i])
    ensures ParseCorsOrigins(Join(xs, ',')) == xs
  {
    if xs != [] {
      SplitJoin(xs, ',');
      OriginsOfOrigins(xs);
      if |xs| > 1 {
        assert Join(xs, ',') == xs[0] + [','] + Join(xs[1..], ',');
      }
      assert Join(xs, ',') != "";
    }
  }

  /** Parsing is idempotent: the parsed list, joined again, parses to itself. */
  lemma ParseIdempotent(s: string)
    ensures ParseCorsOrigins(Join(ParseCorsOrigins(s), ',')) == ParseCorsOrigins(s)
  {
    ParseJoined(ParseCorsOrigins(s));
  }

  /** Empty and blank pieces are dropped: `"a, ,b"` parses as `"a,b"` does. */
  lemma BlankPiecesDropped(a: string, b: string)
    requires IsOrigin(a) && IsOrigin(b)
    ensures ParseCorsOrigins(a + [',', ' ', ','] + b) == [a, b]
  {
    var s := a + [',', ' ', ','] + b;
    SplitAroundBlank(a, b);
    assert s != "";
    BlankPieceDropped(a, b);
  }

  /** The pieces of `"a, ,b"`. */
  lemma SplitAroundBlank(a: string, b: string)
    requires ',' !in a && ',' !in b
    ensures Split(a + [',', ' ', ','] + b, ',') == [a, [' '], b]
  {
    var rest := [' ', ','] + b;
    assert a + [',', ' ', ','] + b == a + [','] + rest;
    SplitAfterPiece(a, rest, ',');
    assert rest == [' '] + [','] + b;
    SplitAfterPiece([' '], b, ',');
    SplitWhole(b, ',');
  }

  /** The blank middle piece strips to nothing and is dropped. */
  lemma BlankPieceDropped(a: string, b: string)
    requires IsOrigin(a) && IsOrigin(b)
    ensures Origins([a, [' '], b]) == [a, b]
  {
    var p := [a, [' '], b];
    StripTrimmed(a);
    assert p[1..] == [[' '], b];
    BlankDropped(b);
  }

  lemma BlankDropped(b: string)
    requires IsOrigin(b)
    ensures Origins([[' '], b]) == [b]
  {
    StripBlank();
    assert [[' '], b][1..] == [b];
    OriginsOfOrigins([b]);
  }

  lemma StripBlank()
    ensures Strip([' ']) == []
  {
    assert IsSpace(' ');
  }

  /** The comprehension works piece by piece: the entries of a list of pieces
      followed by more pieces are those of the first, then those of the
      rest, in order. */
  lemma {:induction false} OriginsAppend(ps: seq<string>, qs: seq<string>)
    requires forall i :: 0 <= i < |ps| ==> ',' !in ps[i]
    requires forall i :: 0 <= i < |qs| ==> ',' !in qs[i]
    ensures forall i :: 0 <= i < |ps + qs| ==> ',' !in (ps + qs)[i]
    ensures Origins(ps + qs) == Origins(ps) + Origins(qs)
    decreases |ps|
  {
    CommaFreeAppend(ps, qs);
    if ps == [] {
      assert ps + qs == qs;
    } else {
      var tail := ps[1..];
      CommaFreeTail(ps);
      OriginsAppend(tail, qs);
      OriginsStep(ps);
      OriginsStep(ps + qs);
      DropAppend(ps, qs);
      var head := if Strip(ps[0]) == [] then [] else [Strip(ps[0])];
      ConcatAssoc(head, Origins(tail), Origins(qs));
    }
  }

  lemma ConcatAssoc(x: seq<string>, y: seq<string>, z: seq<string>)
    ensures x + (y + z) == (x + y) + z
  {
  }

  lemma DropAppend(ps: seq<string>, qs: seq<string>)
    requires ps != []
    ensures (ps + qs)[0] == ps[0] && (ps + qs)[1..] == ps[1..] + qs
  {
  }

  /** The comprehension's first step: the entry of the first piece, if any,
      then those of the rest. */
  lemma OriginsStep(ps: seq<string>)
    requires ps != [] && forall i :: 0 <= i < |ps| ==> ',' !in ps[i]
    ensures forall i :: 0 <= i < |ps[1..]| ==> ',' !in ps[1..][i]
    ensures Origins(ps) == (if Strip(ps[0]) == [] then [] else [Strip(ps[0])]) + Origins(ps[1..])
  {
    CommaFreeTail(ps);
  }

  lemma CommaFreeAppend(ps: seq<string>, qs: seq<string>)
    requires forall i :: 0 <= i < |ps| ==> ',' !in ps[i]
    requires forall i :: 0 <= i < |qs| ==> ',' !in qs[i]
    ensures forall i :: 0 <= i < |ps + qs| ==> ',' !in (ps + qs)[i]
  {
    forall i | 0 <= i < |ps + qs| ensures ',' !in (ps + qs)[i] {
      if i < |ps| { assert (ps + qs)[i] == ps[i]; }
      else { assert (ps + qs)[i] == qs[i - |ps|]; }
    }
  }

  lemma CommaFreeTail(ps: seq<string>)
    requires ps != [] && forall i :: 0 <= i < |ps| ==> ',' !in ps[i]
    ensures forall i :: 0 <= i < |ps[1..]| ==> ',' !in ps[1..][i]
  {
    forall i | 0 <= i < |ps[1..]| ensures ',' !in ps[1..][i] {
      assert ps[1..][i] == ps[i + 1];
    }
  }

  /** One piece gives its stripped text, unless that is empty. */
  lemma OriginsOfPiece(p: string)
    requires ',' !in p
    ensures Origins([p]) == if Strip(p) == [] then [] else [Strip(p)]
  {
    assert [p][1..] == [];
  }

  /** A text is an entry of the list exactly when it is the non-empty strip
      of one of the pieces. */
  lemma {:induction false} OriginsMembers(ps: seq<string>, x: string)
    requires forall i :: 0 <= i < |ps| ==> ',' !in ps[i]
    ensures x in Origins(ps) <==> x != [] && exists i :: 0 <= i < |ps| && Strip(ps[i]) == x
    decreases |ps|
  {
    if ps != [] {
      var tail := ps[1..];
      OriginsStep(ps);
      OriginsMembers(tail, x);
      var head := if Strip(ps[0]) == [] then [] else [Strip(ps[0])];
      InConcat(x, head, Origins(tail));
      StripsToCons(ps, x);
    }
  }

  lemma InConcat(x: string, h: seq<string>, t: seq<string>)
    ensures x in h + t <==> x in h || x in t
  {
  }

  /** Some piece strips to `x` exactly when the first does or one of the
      rest does. */
  lemma StripsToCons(ps: seq<string>, x: string)
    requires ps != []
    ensures (exists i :: 0 <= i < |ps| && Strip(ps[i]) == x)
        <==> Strip(ps[0]) == x || exists i :: 0 <= i < |ps[1..]| && Strip(ps[1..][i]) == x
  {
    var tail := ps[1..];
    if exists i :: 0 <= i < |ps| && Strip(ps[i]) == x {
      var i :| 0 <= i < |ps| && Strip(ps[i]) == x;
      if i > 0 {
        assert Strip(tail[i - 1]) == x;
      }
    }
    if exists i :: 0 <= i < |tail| && Strip(tail[i]) == x {
      var i :| 0 <= i < |tail| && Strip(tail[i]) == x;
      assert Strip(ps[i + 1]) == x;
    }
  }

  /** An origin is allowed exactly when some piece of the setting, stripped,
      is that origin; the empty setting, whose one piece is empty, included. */
  lemma ParseMembers(s: string, x: string)
    ensures x in ParseCorsOrigins(s) <==> x != [] && exists p :: p in Split(s, ',') && Strip(p) == x
  {
    var ps := Split(s, ',');
    OriginsMembers(ps, x);
    SomePieceStrips(ps, x);
    if s == "" {
      SplitWhole(s, ',');
    }
  }

  /** Some piece strips to `x`, by position or by membership alike. */
  lemma SomePieceStrips(ps: seq<string>, x: string)
    ensures (exists p :: p in ps && Strip(p) == x) <==> exists i :: 0 <= i < |ps| && Strip(ps[i]) == x
  {
    forall p | p in ps && Strip(p) == x
      ensures exists i :: 0 <= i < |ps| && Strip(ps[i]) == x
    {
      var i :| 0 <= i < |ps| && ps[i] == p;
    }
    forall i | 0 <= i < |ps| && Strip(ps[i]) == x
      ensures exists p :: p in ps && Strip(p) == x
    {
      assert ps[i] in ps;
    }
  }

  /** White space around an entry is stripped: `" a , b "` parses as
      `"a,b"` does. */
  lemma PaddedPiecesStripped(a: string, b: string)
    requires IsOrigin(a) && IsOrigin(b)
    ensures ParseCorsOrigins([' '] + a + [' ', ',', ' '] + b + [' ']) == [a, b]
  {
    var pa, pb := [' '] + a + [' '], [' '] + b + [' '];
    PaddingStripped(a);
    PaddingStripped(b);
    PaddedText(a, b);
    TwoPieces(pa, pb);
  }

  lemma PaddedText(a: string, b: string)
    ensures [' '] + a + [' ', ',', ' '] + b + [' '] == ([' '] + a + [' ']) + [','] + ([' '] + b + [' '])
  {
  }

  /** Two pieces around one comma each give their stripped text. */
  lemma TwoPieces(p: string, q: string)
    requires ',' !in p && ',' !in q && Strip(p) != [] && Strip(q) != []
    ensures ParseCorsOrigins(p + [','] + q) == [Strip(p), Strip(q)]
  {
    SplitAfterPiece(p, q, ',');
    SplitWhole(q, ',');
    var ps := [p] + [q];
    assert |p + [','] + q| > 0;
    OriginsStep(ps);
    assert ps[0] == p && ps[1..] == [q];
    OriginsOfPiece(q);
  }

  /** One blank on each side of an entry strips away. */
  lemma PaddingStripped(a: string)
    requires IsOrigin(a)
    ensures ',' !in [' '] + a + [' ']
    ensures Strip([' '] + a + [' ']) == a
  {
    var p := [' '] + a + [' '];
    assert IsSpace(' ');
    assert p[1..] == a + [' '];
    assert StripLeft(a + [' ']) == a + [' '];
    assert (a + [' '])[..|a|] == a;
    assert StripRight(a) == a;
    assert forall k :: 0 <= k < |p| ==> p[k] == ' ' || p[k] == a[k - 1];
  }
}
