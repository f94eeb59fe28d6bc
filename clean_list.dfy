/**
 The list cleaner of the reply parser: a block of text is cut at every
 match of the separator pattern `\n|,|\s*-\s*` (as `re.split` does: leftmost
 match first, its alternatives tried in order, `\s*` greedy), the pieces
 that are blank are dropped, and every remaining piece has the characters
 '-', '•', ' ' and newline stripped from both ends and then any whitespace.
 The blank test runs before the stripping, so a piece made only of bullets
 survives as an empty item.
 */
module ListCleaner {
  import opened Wrappers
  import opened Chars
  import opened ScorePatterns

  // ----------------------------------------------------------------------
  // Splitting
  // ----------------------------------------------------------------------

  /** A text the separator pattern matches in full: a newline, a comma, or
      a dash with whitespace on either side. */
  ghost predicate IsSeparator(x: string) {
    || x == "\n"
    || x == ","
    || exists a :: 0 <= a < |x| && x[a] == '-'
         && (forall k :: 0 <= k < a ==> IsSpace(x[k]))
         && (forall k :: a < k < |x| ==> IsSpace(x[k]))
  }

  /** Whether c can only occur inside a separator. */
  predicate SeparatorChar(c: char) {
    c == '\n' || c == ',' || c == '-'
  }

  /** The end of the separator matched at i, if one is: the alternatives
      `\n`, `,` and `\s*-\s*` are tried in this order, and the last one
      takes every whitespace character on both sides of its dash. */
  function SeparatorAt(s: string, i: nat): (r: Option<nat>)
    requires i < |s|
    ensures r.Some? ==> i < r.value <= |s|
    ensures SeparatorChar(s[i]) ==> r.Some?
    ensures s[i] == '\n' || s[i] == ',' ==> r == Some(i + 1)
  {
    if s[i] == '\n' || s[i] == ',' then Some(i + 1)
    else
      var k := SkipSpaces(s, i);
      if k < |s| && s[k] == '-' then Some(SkipSpaces(s, k + 1)) else None
  }

  /** A separator found in the text: it spans [start, end). */
  datatype Cut = Cut(start: nat, end: nat)

  /** The leftmost separator at or after i. */
  function FirstCut(s: string, i: nat): (r: Option<Cut>)
    requires i <= |s|
    ensures r.Some? ==> i <= r.value.start < |s| && SeparatorAt(s, r.value.start) == Some(r.value.end)
    ensures forall k :: i <= k < (if r.Some? then r.value.start else |s|) ==> SeparatorAt(s, k).None?
    decreases |s| - i
  {
    if i == |s| then None
    else
      match SeparatorAt(s, i)
      case Some(e) => Some(Cut(i, e))
      case None => FirstCut(s, i + 1)
  }

  /** `re.split` with the separator pattern: the texts between consecutive
      separators, including an empty first or last piece when the text
      starts or ends with a separator. */
  function Pieces(s: string): (r: seq<string>)
    ensures |r| >= 1
    decreases |s|
  {
    match FirstCut(s, 0)
    case None => [s]
    case Some(c) => [s[..c.start]] + Pieces(s[c.end..])
  }

  /** The texts the separators matched, in order. */
  function Separators(s: string): seq<string>
    decreases |s|
  {
    match FirstCut(s, 0)
    case None => []
    case Some(c) => [s[c.start..c.end]] + Separators(s[c.end..])
  }

  /** The pieces with the given separators put back between them. */
  function Rejoin(pieces: seq<string>, seps: seq<string>): string
    requires |pieces| == |seps| + 1
  {
    if |seps| == 0 then pieces[0]
    else pieces[0] + seps[0] + Rejoin(pieces[1..], seps[1..])
  }

  // ----------------------------------------------------------------------
  // Stripping
  // ----------------------------------------------------------------------

  /** What a `str.strip` call removes: the characters of its argument, or
      whitespace when it has none. */
  datatype Strip = Chars(cs: set<char>) | Whitespace

  predicate Removes(k: Strip, c: char) {
    match k
    case Chars(cs) => c in cs
    case Whitespace => IsSpace(c)
  }

  /** The first position at or after i whose character is kept. */
  function KeptFrom(s: string, i: nat, k: Strip): (a: nat)
    requires i <= |s|
    ensures i <= a <= |s|
    ensures forall m :: i <= m < a ==> Removes(k, s[m])
    ensures a < |s| ==> !Removes(k, s[a])
    decreases |s| - i
  {
    if i < |s| && Removes(k, s[i]) then KeptFrom(s, i + 1, k) else i
  }

  /** The end of the last kept character in s[a..j]. */
  function KeptUntil(s: string, a: nat, j: nat, k: Strip): (b: nat)
    requires a <= j <= |s|
    ensures a <= b <= j
    ensures forall m :: b <= m < j ==> Removes(k, s[m])
    ensures b > a ==> !Removes(k, s[b - 1])
    decreases j
  {
    if j > a && Removes(k, s[j - 1]) then KeptUntil(s, a, j - 1, k) else j
  }

  /** r is s with a run of removable characters dropped at each end, and
      no removable character left at either end of r. */
  ghost predicate StrippedOf(s: string, r: string, k: Strip) {
    exists a, b :: 0 <= a <= b <= |s| && r == s[a..b]
      && (forall m :: 0 <= m < a ==> Removes(k, s[m]))
      && (forall m :: b <= m < |s| ==> Removes(k, s[m]))
      && (|r| > 0 ==> !Removes(k, r[0]) && !Removes(k, r[|r| - 1]))
  }

  /** Python's `str.strip`. */
  function StripBy(s: string, k: Strip): (r: string)
    ensures StrippedOf(s, r, k)
    ensures |r| > 0 ==> !Removes(k, r[0]) && !Removes(k, r[|r| - 1])
  {
    var a := KeptFrom(s, 0, k);
    var b := KeptUntil(s, a, |s|, k);
    assert |s[a..b]| > 0 ==> s[a..b][0] == s[a] && s[a..b][b - a - 1] == s[b - 1];
    s[a..b]
  }

  // ----------------------------------------------------------------------
  // The cleaner
  // ----------------------------------------------------------------------

  /** The characters the first strip of every item removes. */
  const BulletChars: set<char> := {'-', '\U{2022}', ' ', '\n'}

  /** A piece the comprehension drops: nothing is left once whitespace is
      stripped. */
  predicate Blank(piece: string) {
    StripBy(piece, Whitespace) == []
  }

  /** One kept piece as it ends up in the list. */
  function CleanItem(piece: string): string {
    StripBy(StripBy(piece, Chars(BulletChars)), Whitespace)
  }

  /** The comprehension over the pieces: blank pieces dropped, the others
      cleaned, the order kept. */
  function KeepItems(pieces: seq<string>): seq<string> {
    if |pieces| == 0 then []
    else (if Blank(pieces[0]) then [] else [CleanItem(pieces[0])]) + KeepItems(pieces[1..])
  }

  /** The list cleaner: no items for an empty block, otherwise the cleaned
      non-blank pieces of the block. */
  function CleanList(text: string): seq<string> {
    if |text| == 0 then [] else KeepItems(Pieces(text))
  }

  // ----------------------------------------------------------------------
  // What the split produces
  // ----------------------------------------------------------------------

  /** A separator found by the scanner is one the pattern matches in full;
      a dash separator takes all the whitespace that follows it. */
  lemma SeparatorAtSound(s: string, i: nat)
    requires i < |s| && SeparatorAt(s, i).Some?
    ensures IsSeparator(s[i..SeparatorAt(s, i).value])
    ensures s[i] != '\n' && s[i] != ',' ==> SeparatorAt(s, i).value == |s| || !IsSpace(s[SeparatorAt(s, i).value])
  {
    if s[i] != '\n' && s[i] != ',' {
      var k := SkipSpaces(s, i);
      var e := SkipSpaces(s, k + 1);
      var x := s[i..e];
      assert x[k - i] == '-';
      forall m | 0 <= m < k - i ensures IsSpace(x[m]) {
        assert x[m] == s[i + m];
      }
      forall m | k - i < m < |x| ensures IsSpace(x[m]) {
        assert x[m] == s[i + m];
      }
    }
  }

  /** Every position where the separator pattern can match some text is one
      where the scanner finds a separator; in particular a run of whitespace
      that ends at a dash starts one. */
  lemma SeparatorAtComplete(s: string, i: nat, j: nat)
    requires i < j <= |s| && IsSeparator(s[i..j])
    ensures SeparatorAt(s, i).Some?
  {
    var x := s[i..j];
    if s[i] != '\n' && s[i] != ',' && x != "\n" && x != "," {
      var a :| 0 <= a < |x| && x[a] == '-'
               && (forall k :: 0 <= k < a ==> IsSpace(x[k]))
               && (forall k :: a < k < |x| ==> IsSpace(x[k]));
      forall k | i <= k < i + a ensures IsSpace(s[k]) {
        assert s[k] == x[k - i];
      }
      assert s[i + a] == x[a];
      SkipSpacesStopsAt(s, i, i + a);
    } else if x == "\n" || x == "," {
      assert s[i] == x[0];
    }
  }

  /** The cut FirstCut finds is the leftmost place the separator pattern can
      match: no match of the pattern, of any length, starts before it. */
  lemma FirstCutLeftmost(s: string, i: nat)
    requires i <= |s|
    ensures var c := if FirstCut(s, i).Some? then FirstCut(s, i).value.start else |s|;
      forall k, j :: i <= k < c && k < j <= |s| ==> !IsSeparator(s[k..j])
  {
    var c := if FirstCut(s, i).Some? then FirstCut(s, i).value.start else |s|;
    forall k, j | i <= k < c && k < j <= |s| ensures !IsSeparator(s[k..j])
    {
      if IsSeparator(s[k..j]) {
        SeparatorAtComplete(s, k, j);
      }
    }
  }

  /** No piece holds a newline, a comma or a dash: each of those starts a
      separator wherever it occurs. */
  lemma {:induction false} PiecesFree(s: string)
    ensures forall p, m :: p in Pieces(s) && 0 <= m < |p| ==> !SeparatorChar(p[m])
    decreases |s|
  {
    match FirstCut(s, 0)
    case None =>
      forall m | 0 <= m < |s| ensures !SeparatorChar(s[m]) {
        assert SeparatorAt(s, m).None?;
      }
    case Some(c) =>
      PiecesFree(s[c.end..]);
      forall m | 0 <= m < c.start ensures !SeparatorChar(s[..c.start][m]) {
        assert SeparatorAt(s, m).None?;
      }
  }

  /** The split loses nothing: the separators it cuts at are texts the
      pattern matches, and putting them back between the pieces gives the
      text again. */
  lemma {:induction false} PiecesRebuild(s: string)
    ensures |Separators(s)| + 1 == |Pieces(s)|
    ensures forall x :: x in Separators(s) ==> IsSeparator(x)
    ensures Rejoin(Pieces(s), Separators(s)) == s
    decreases |s|
  {
    match FirstCut(s, 0)
    case None =>
    case Some(c) =>
      var tail := s[c.end..];
      PiecesRebuild(tail);
      SeparatorAtSound(s, c.start);
      RejoinCons(s[..c.start], s[c.start..c.end], Pieces(tail), Separators(tail));
      SliceThree(s, c.start, c.end);
  }

  lemma SliceThree(s: string, a: nat, b: nat)
    requires a <= b <= |s|
    ensures s[..a] + s[a..b] + s[b..] == s
  {
  }

  lemma RejoinCons(piece: string, sep: string, pieces: seq<string>, seps: seq<string>)
    requires |pieces| == |seps| + 1
    ensures Rejoin([piece] + pieces, [sep] + seps) == piece + sep + Rejoin(pieces, seps)
  {
    assert ([piece] + pieces)[1..] == pieces;
    assert ([sep] + seps)[1..] == seps;
  }

  /** Every character of a piece is a character of the text. */
  lemma {:induction false} PiecesWithin(s: string)
    ensures forall p, m :: p in Pieces(s) && 0 <= m < |p| ==> p[m] in s
    decreases |s|
  {
    match FirstCut(s, 0)
    case None =>
    case Some(c) =>
      PiecesWithin(s[c.end..]);
      forall p, m | p in Pieces(s[c.end..]) && 0 <= m < |p| ensures p[m] in s {
        assert p[m] in s[c.end..];
      }
      forall m | 0 <= m < c.start ensures s[..c.start][m] in s {
        assert s[..c.start][m] == s[m];
      }
  }

  // ----------------------------------------------------------------------
  // What the cleaner produces
  // ----------------------------------------------------------------------

  /** A cleaned item is made of characters of its piece and has no
      whitespace at either end. */
  lemma CleanItemShape(piece: string)
    ensures forall m :: 0 <= m < |CleanItem(piece)| ==> CleanItem(piece)[m] in piece
    ensures var r := CleanItem(piece); |r| > 0 ==> !IsSpace(r[0]) && !IsSpace(r[|r| - 1])
  {
    var t := StripBy(piece, Chars(BulletChars));
    var r := StripBy(t, Whitespace);
    StripWithin(piece, Chars(BulletChars));
    StripWithin(t, Whitespace);
    forall m | 0 <= m < |r| ensures r[m] in piece {
      var j :| 0 <= j < |t| && t[j] == r[m];
    }
  }

  /** Every character stripping leaves is a character of the text. */
  lemma StripWithin(s: string, k: Strip)
    ensures forall m :: 0 <= m < |StripBy(s, k)| ==> StripBy(s, k)[m] in s
  {
    var a := KeptFrom(s, 0, k);
    var b := KeptUntil(s, a, |s|, k);
    assert StripBy(s, k) == s[a..b];
    forall m | 0 <= m < b - a ensures s[a..b][m] in s {
      assert s[a..b][m] == s[a + m];
    }
  }

  /** Each item of KeepItems is a non-blank piece, cleaned. */
  lemma {:induction false} KeepItemsFrom(pieces: seq<string>)
    ensures |KeepItems(pieces)| <= |pieces|
    ensures forall x :: x in KeepItems(pieces) ==> exists p :: p in pieces && !Blank(p) && x == CleanItem(p)
  {
    if |pieces| > 0 {
      var rest := pieces[1..];
      KeepItemsFrom(rest);
      var head := if Blank(pieces[0]) then [] else [CleanItem(pieces[0])];
      assert KeepItems(pieces) == head + KeepItems(rest);
      forall x | x in KeepItems(pieces) ensures exists p :: p in pieces && !Blank(p) && x == CleanItem(p) {
        if x in head {
          assert pieces[0] in pieces;
        } else {
          var p :| p in rest && !Blank(p) && x == CleanItem(p);
          assert p in pieces;
        }
      }
    }
  }

  /** The number of pieces that are not blank. */
  function NonBlankCount(pieces: seq<string>): (n: nat)
    ensures n <= |pieces|
  {
    if |pieces| == 0 then 0
    else (if Blank(pieces[0]) then 0 else 1) + NonBlankCount(pieces[1..])
  }

  /** KeepItems keeps exactly the non-blank pieces, cleaned, in their
      order: there is one item per non-blank piece, and the piece at index
      i, when not blank, gives the item whose index is the number of
      non-blank pieces before it. */
  lemma {:induction false} KeepItemsExact(pieces: seq<string>)
    ensures |KeepItems(pieces)| == NonBlankCount(pieces)
    ensures forall i :: 0 <= i < |pieces| && !Blank(pieces[i]) ==>
      NonBlankCount(pieces[..i]) < |KeepItems(pieces)| && KeepItems(pieces)[NonBlankCount(pieces[..i])] == CleanItem(pieces[i])
  {
    if |pieces| > 0 {
      var rest := pieces[1..];
      KeepItemsExact(rest);
      forall j | 0 <= j < |rest| ensures ItemPlaced(rest, j) { }
      forall i | 0 <= i < |pieces| && !Blank(pieces[i])
        ensures NonBlankCount(pieces[..i]) < |KeepItems(pieces)|
        ensures KeepItems(pieces)[NonBlankCount(pieces[..i])] == CleanItem(pieces[i])
      {
        KeepItemsAt(pieces, i);
      }
    }
  }

  /** The non-blank piece at index j, if it is one, gives the item whose
      index is the number of non-blank pieces before it. */
  predicate ItemPlaced(pieces: seq<string>, j: nat)
    requires j < |pieces|
  {
    !Blank(pieces[j]) ==>
      NonBlankCount(pieces[..j]) < |KeepItems(pieces)| && KeepItems(pieces)[NonBlankCount(pieces[..j])] == CleanItem(pieces[j])
  }

  /** One step of KeepItemsExact: the item of the piece at index i, given
      where the items of the later pieces are. */
  lemma KeepItemsAt(pieces: seq<string>, i: nat)
    requires i < |pieces|
    requires forall j :: 0 <= j < |pieces| - 1 ==> ItemPlaced(pieces[1..], j)
    ensures ItemPlaced(pieces, i)
  {
    if i == 0 {
      KeepItemsFirst(pieces);
    } else if !Blank(pieces[i]) {
      var rest := pieces[1..];
      assert pieces[i] == rest[i - 1];
      assert ItemPlaced(rest, i - 1);
      NonBlankCountShift(pieces, i);
      KeepItemsLater(pieces, i, NonBlankCount(rest[..i - 1]));
    }
  }

  /** The first piece, if not blank, gives the first item. */
  lemma KeepItemsFirst(pieces: seq<string>)
    requires 0 < |pieces|
    ensures ItemPlaced(pieces, 0)
  {
    assert pieces[..0] == [];
  }

  /** A later piece's item is shifted by the item of the first piece. */
  lemma KeepItemsLater(pieces: seq<string>, i: nat, n: nat)
    requires 0 < i < |pieces|
    requires n < |KeepItems(pieces[1..])| && KeepItems(pieces[1..])[n] == CleanItem(pieces[i])
    requires NonBlankCount(pieces[..i]) == (if Blank(pieces[0]) then 0 else 1) + n
    ensures NonBlankCount(pieces[..i]) < |KeepItems(pieces)|
    ensures KeepItems(pieces)[NonBlankCount(pieces[..i])] == CleanItem(pieces[i])
  {
    KeepItemsShifted(pieces, n);
  }

  /** The items after the first piece's are those of the later pieces. */
  lemma KeepItemsShifted(pieces: seq<string>, n: nat)
    requires 0 < |pieces| && n < |KeepItems(pieces[1..])|
    ensures var h := if Blank(pieces[0]) then 0 else 1;
      h + n < |KeepItems(pieces)| && KeepItems(pieces)[h + n] == KeepItems(pieces[1..])[n]
  {
  }

  /** Counting the non-blank pieces before index i splits off the first. */
  lemma NonBlankCountShift(pieces: seq<string>, i: nat)
    requires 0 < i <= |pieces|
    ensures NonBlankCount(pieces[..i]) == (if Blank(pieces[0]) then 0 else 1) + NonBlankCount(pieces[1..][..i - 1])
  {
    assert pieces[..i][0] == pieces[0] && pieces[..i][1..] == pieces[1..][..i - 1];
  }

  /** Every non-blank piece gives an item. */
  lemma NonBlankPieceKept(pieces: seq<string>, p: string)
    requires p in pieces && !Blank(p)
    ensures CleanItem(p) in KeepItems(pieces)
  {
    KeepItemsExact(pieces);
    var i :| 0 <= i < |pieces| && pieces[i] == p;
    assert KeepItems(pieces)[NonBlankCount(pieces[..i])] == CleanItem(p);
  }

  /** Cleaning a piece that holds no newline, comma or dash gives an item
      that holds none either. */
  lemma CleanItemFree(piece: string)
    requires forall m :: 0 <= m < |piece| ==> !SeparatorChar(piece[m])
    ensures forall m :: 0 <= m < |CleanItem(piece)| ==> !SeparatorChar(CleanItem(piece)[m])
  {
    CleanItemShape(piece);
    forall m | 0 <= m < |CleanItem(piece)| ensures !SeparatorChar(CleanItem(piece)[m]) {
      var j :| 0 <= j < |piece| && piece[j] == CleanItem(piece)[m];
    }
  }

  /** Every item of the cleaned list comes from a piece that was not blank
      before stripping, holds no newline, comma or dash, and has no
      whitespace at either end; there are never more items than pieces. */
  lemma CleanListItems(text: string)
    ensures |CleanList(text)| <= |Pieces(text)|
    ensures forall x :: x in CleanList(text) ==>
      && (exists p :: p in Pieces(text) && !Blank(p) && x == CleanItem(p))
      && (forall m :: 0 <= m < |x| ==> !SeparatorChar(x[m]))
      && (|x| > 0 ==> !IsSpace(x[0]) && !IsSpace(x[|x| - 1]))
  {
    KeepItemsFrom(Pieces(text));
    PiecesFree(text);
    forall x | x in CleanList(text)
      ensures (forall m :: 0 <= m < |x| ==> !SeparatorChar(x[m]))
      ensures |x| > 0 ==> !IsSpace(x[0]) && !IsSpace(x[|x| - 1])
    {
      var p :| p in Pieces(text) && !Blank(p) && x == CleanItem(p);
      CleanItemShape(p);
      CleanItemFree(p);
    }
  }

  /** The cleaned list of any text, the empty text included, is its
      non-blank pieces cleaned, one item per piece and in the pieces' order. */
  lemma CleanListExact(text: string)
    ensures |CleanList(text)| == NonBlankCount(Pieces(text))
    ensures forall i :: 0 <= i < |Pieces(text)| && !Blank(Pieces(text)[i]) ==>
      NonBlankCount(Pieces(text)[..i]) < |CleanList(text)|
      && CleanList(text)[NonBlankCount(Pieces(text)[..i])] == CleanItem(Pieces(text)[i])
    ensures forall p :: p in Pieces(text) && !Blank(p) ==> CleanItem(p) in CleanList(text)
  {
    if |text| == 0 {
      assert Pieces(text) == [text];
      assert Blank(text);
    }
    KeepItemsExact(Pieces(text));
    forall p | p in Pieces(text) && !Blank(p) ensures CleanItem(p) in CleanList(text) {
      NonBlankPieceKept(Pieces(text), p);
    }
  }

  /** A block made only of whitespace gives no items. */
  lemma BlankTextGivesNoItems(text: string)
    requires forall m :: 0 <= m < |text| ==> IsSpace(text[m])
    ensures CleanList(text) == []
  {
    if |text| > 0 {
      PiecesWithin(text);
      forall p | p in Pieces(text) ensures Blank(p) {
        forall m | 0 <= m < |p| ensures IsSpace(p[m]) {
          var j :| 0 <= j < |text| && text[j] == p[m];
        }
        assert KeptFrom(p, 0, Whitespace) == |p|;
      }
      KeepAllBlank(Pieces(text));
    }
  }

  lemma {:induction false} KeepAllBlank(pieces: seq<string>)
    requires forall p :: p in pieces ==> Blank(p)
    ensures KeepItems(pieces) == []
  {
    if |pieces| > 0 {
      assert pieces[0] in pieces;
      assert forall p :: p in pieces[1..] ==> p in pieces;
      KeepAllBlank(pieces[1..]);
    }
  }

  // ----------------------------------------------------------------------
  // Round trip through a bulleted list
  // ----------------------------------------------------------------------

  /** An item a bulleted line can carry unchanged: not empty, no newline,
      comma or dash inside, and no whitespace or bullet at either end. */
  predicate ListItem(w: string) {
    && |w| > 0
    && (forall m :: 0 <= m < |w| ==> !SeparatorChar(w[m]))
    && !IsSpace(w[0]) && !IsSpace(w[|w| - 1])
    && w[0] != '\U{2022}' && w[|w| - 1] != '\U{2022}'
  }

  /** The items written one per line, each after "- ", the way the reply
      format lists keywords. */
  function BulletList(items: seq<string>): string {
    if |items| == 0 then ""
    else if |items| == 1 then "- " + items[0]
    else "- " + items[0] + "\n" + BulletList(items[1..])
  }

  /** No separator starts inside a list item, whatever follows it. */
  lemma NoCutInItem(w: string, x: string)
    requires ListItem(w)
    ensures forall k :: 0 <= k < |w| ==> SeparatorAt(w + x, k).None?
  {
    var s := w + x;
    forall k | 0 <= k < |w| ensures SeparatorAt(s, k).None? {
      assert s[k] == w[k];
      var j := SkipSpaces(s, k);
      assert !IsSpace(s[|w| - 1]);
      assert j < |w|;
      assert s[j] == w[j];
    }
  }

  /** The scan for the first separator passes over positions where none
      starts. */
  lemma {:induction false} FirstCutSkips(s: string, i: nat, j: nat)
    requires i <= j <= |s|
    requires forall k :: i <= k < j ==> SeparatorAt(s, k).None?
    ensures FirstCut(s, i) == FirstCut(s, j)
    decreases j - i
  {
    if i < j {
      assert SeparatorAt(s, i).None?;
      FirstCutSkips(s, i + 1, j);
    }
  }

  /** An item alone is one piece. */
  lemma PiecesOfItem(w: string)
    requires ListItem(w)
    ensures Pieces(w) == [w]
  {
    NoCutInItem(w, "");
    assert w + "" == w;
    FirstCutSkips(w, 0, |w|);
  }

  /** An item followed by a newline is one piece, cut at that newline. */
  lemma PiecesOfLine(w: string, rest: string)
    requires ListItem(w)
    ensures Pieces(w + "\n" + rest) == [w] + Pieces(rest)
  {
    var s := w + "\n" + rest;
    NoCutInItem(w, "\n" + rest);
    assert w + ("\n" + rest) == s;
    FirstCutSkips(s, 0, |w|);
    assert s[|w|] == '\n';
    assert FirstCut(s, |w|) == Some(Cut(|w|, |w| + 1));
    assert s[..|w|] == w;
    assert s[|w| + 1..] == rest;
  }

  /** A leading "- " is a separator with an empty piece before it. */
  lemma PiecesOfBullet(v: string)
    requires |v| > 0 && !IsSpace(v[0])
    ensures Pieces("- " + v) == [""] + Pieces(v)
  {
    var s := "- " + v;
    assert s[0] == '-' && s[1] == ' ' && s[2] == v[0];
    assert SkipSpaces(s, 0) == 0;
    assert SkipSpaces(s, 1) == 2;
    assert FirstCut(s, 0) == Some(Cut(0, 2));
    assert s[2..] == v;
  }

  /** A list item survives the cleaning as itself. */
  lemma CleanItemOfListItem(w: string)
    requires ListItem(w)
    ensures !Blank(w) && CleanItem(w) == w
  {
    assert KeptFrom(w, 0, Whitespace) == 0;
    assert KeptUntil(w, 0, |w|, Whitespace) == |w|;
    assert !Removes(Chars(BulletChars), w[0]);
    assert KeptFrom(w, 0, Chars(BulletChars)) == 0;
    assert !Removes(Chars(BulletChars), w[|w| - 1]);
    assert KeptUntil(w, 0, |w|, Chars(BulletChars)) == |w|;
    assert w[0..|w|] == w;
  }

  /** The pieces of a bulleted line are an empty piece and the item. */
  lemma KeepBulletItem(w: string, pieces: seq<string>)
    requires ListItem(w)
    ensures KeepItems([""] + ([w] + pieces)) == [w] + KeepItems(pieces)
  {
    CleanItemOfListItem(w);
    assert ([""] + ([w] + pieces))[1..] == [w] + pieces;
    assert ([w] + pieces)[1..] == pieces;
  }

  /** A bulleted line that ends the list cleans to its item. */
  lemma CleanLastLine(w: string)
    requires ListItem(w)
    ensures KeepItems(Pieces("- " + w)) == [w]
  {
    PiecesOfBullet(w);
    PiecesOfItem(w);
    KeepBulletItem(w, []);
    assert [w] + [] == [w];
  }

  /** A bulleted line followed by more text cleans to its item followed by
      what the rest cleans to. */
  lemma CleanLine(w: string, rest: string)
    requires ListItem(w)
    ensures KeepItems(Pieces("- " + w + "\n" + rest)) == [w] + KeepItems(Pieces(rest))
  {
    PiecesOfBullet(w + "\n" + rest);
    PiecesOfLine(w, rest);
    KeepBulletItem(w, Pieces(rest));
    Regroup("- ", w, "\n", rest);
  }

  lemma Regroup(a: string, b: string, c: string, d: string)
    ensures a + b + c + d == a + (b + c + d)
  {
  }

  /** Cleaning a bulleted list of items gives back exactly those items, in
      order. */
  lemma {:induction false} BulletListRoundTrip(items: seq<string>)
    requires forall w :: w in items ==> ListItem(w)
    ensures CleanList(BulletList(items)) == items
  {
    if |items| == 1 {
      assert items[0] in items;
      CleanLastLine(items[0]);
    } else if |items| > 1 {
      var w := items[0];
      assert w in items;
      var tail := items[1..];
      assert forall v :: v in tail ==> v in items;
      BulletListRoundTrip(tail);
      assert items == [w] + tail;
      CleanListStep(w, tail);
    }
  }

  /** One more bulleted line in front of a list that cleans to itself. */
  lemma CleanListStep(w: string, tail: seq<string>)
    requires ListItem(w) && |tail| > 0 && CleanList(BulletList(tail)) == tail
    ensures CleanList(BulletList([w] + tail)) == [w] + tail
  {
    var items := [w] + tail;
    assert items[0] == w && items[1..] == tail;
    CleanLine(w, BulletList(tail));
  }

  // ----------------------------------------------------------------------
  // Examples
  // ----------------------------------------------------------------------

  /** A piece made only of a bullet is not blank, so it is kept, and
      stripping leaves it empty: the list can hold empty items. */
  lemma LoneBulletGivesEmptyItem(t: string)
    requires t == "\U{2022}"
    ensures CleanList(t) == [""]
  {
    assert SeparatorAt(t, 0).None?;
    assert FirstCut(t, 1).None?;
    assert Pieces(t) == [t];
    assert KeptFrom(t, 0, Whitespace) == 0;
    assert !Blank(t);
    assert KeptFrom(t, 0, Chars(BulletChars)) == 1;
    assert StripBy(t, Chars(BulletChars)) == [];
    assert KeepItems([t])[1..] == [];
  }

  /** Two items joined by a bare dash are two pieces. */
  lemma PiecesOfDashed(w: string, v: string)
    requires ListItem(w) && ListItem(v)
    ensures Pieces(w + "-" + v) == [w, v]
  {
    var s := w + "-" + v;
    NoCutInItem(w, "-" + v);
    assert w + ("-" + v) == s;
    FirstCutSkips(s, 0, |w|);
    assert s[|w|] == '-';
    assert SkipSpaces(s, |w|) == |w|;
    assert s[|w| + 1] == v[0];
    assert SkipSpaces(s, |w| + 1) == |w| + 1;
    assert FirstCut(s, |w|) == Some(Cut(|w|, |w| + 1));
    assert s[..|w|] == w;
    assert s[|w| + 1..] == v;
    PiecesOfItem(v);
  }

  /** Two items joined by a comma are two pieces. */
  lemma PiecesOfCommaPair(w: string, v: string)
    requires ListItem(w) && ListItem(v)
    ensures Pieces(w + "," + v) == [w, v]
  {
    var s := w + "," + v;
    NoCutInItem(w, "," + v);
    assert w + ("," + v) == s;
    FirstCutSkips(s, 0, |w|);
    assert s[|w|] == ',';
    assert FirstCut(s, |w|) == Some(Cut(|w|, |w| + 1));
    assert s[..|w|] == w;
    assert s[|w| + 1..] == v;
    PiecesOfItem(v);
  }

  /** A comma-separated block gives its entries as items. */
  lemma CommaListItems(t: string)
    requires t == "Python,SQL"
    ensures CleanList(t) == ["Python", "SQL"]
  {
    var w := "Python";
    var v := "SQL";
    assert ListItem(w) && ListItem(v);
    assert t == w + "," + v;
    PiecesOfCommaPair(w, v);
    CleanItemOfListItem(w);
    CleanItemOfListItem(v);
    assert [w, v][1..] == [v];
    assert KeepItems([v]) == [v];
  }

  /** A dash inside a word is a separator too: a hyphenated keyword comes
      out as two items. */
  lemma HyphenSplitsWord(t: string)
    requires t == "front-end"
    ensures CleanList(t) == ["front", "end"]
  {
    var w := "front";
    var v := "end";
    assert ListItem(w) && ListItem(v);
    assert t == w + "-" + v;
    PiecesOfDashed(w, v);
    CleanItemOfListItem(w);
    CleanItemOfListItem(v);
    assert [w, v][1..] == [v];
    assert KeepItems([v]) == [v];
  }
}
