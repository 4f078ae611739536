/** The position text the UCCI protocol's `position fen` command carries
    (UcciUtilities.cs), a decoder for it, and the space/slash splitting both
    the encoder's checks and the engine's replies rely on. */
module UcciUtilities {
  import opened Results
  import opened Pieces
  import opened Locations
  import opened Boards

  // ---------------------------------------------------------------------------
  // Piece letters

  /** The lower-case letter of a kind. */
  function KindLetter(kind: PawnKind): (c: char)
    ensures 'a' <= c <= 'z'
  {
    match kind
    case Chariot => 'r'
    case Horse => 'n'
    case Elephant => 'b'
    case Advisor => 'a'
    case General => 'k'
    case Cannon => 'c'
    case Soldier => 'p'
  }

  function ToUpper(c: char): (u: char)
    requires 'a' <= c <= 'z'
    ensures 'A' <= u <= 'Z'
  {
    (c as int - 32) as char
  }

  /** Each piece's letter, in the case of its camp, decodes to the piece. */
  lemma LetterDecodes(pawn: Pawn)
    ensures PawnOfFenChar(if pawn.camp == Self then ToUpper(KindLetter(pawn.kind)) else KindLetter(pawn.kind)) == Some(pawn)
  {
    match pawn.kind
    case Chariot => assert ToUpper('r') == 'R';
    case Horse => assert ToUpper('n') == 'N';
    case Elephant => assert ToUpper('b') == 'B';
    case Advisor => assert ToUpper('a') == 'A';
    case General => assert ToUpper('k') == 'K';
    case Cannon => assert ToUpper('c') == 'C';
    case Soldier => assert ToUpper('p') == 'P';
  }

  /** GetFenChar: the kind's letter, upper-case for Self. The letter decodes
      back to the piece, and its case tells the camp. */
  function GetFenChar(pawn: Pawn): (c: char)
    ensures PawnOfFenChar(c) == Some(pawn)
    ensures ('A' <= c <= 'Z') <==> pawn.camp == Self
    ensures ('a' <= c <= 'z') <==> pawn.camp == Opponent
  {
    LetterDecodes(pawn);
    var c := KindLetter(pawn.kind);
    if pawn.camp == Self then ToUpper(c) else c
  }

  /** The piece a FEN letter stands for, if any. */
  function PawnOfFenChar(c: char): Option<Pawn> {
    match c
    case 'r' => Some(Pawn(Opponent, Chariot))
    case 'n' => Some(Pawn(Opponent, Horse))
    case 'b' => Some(Pawn(Opponent, Elephant))
    case 'a' => Some(Pawn(Opponent, Advisor))
    case 'k' => Some(Pawn(Opponent, General))
    case 'c' => Some(Pawn(Opponent, Cannon))
    case 'p' => Some(Pawn(Opponent, Soldier))
    case 'R' => Some(Pawn(Self, Chariot))
    case 'N' => Some(Pawn(Self, Horse))
    case 'B' => Some(Pawn(Self, Elephant))
    case 'A' => Some(Pawn(Self, Advisor))
    case 'K' => Some(Pawn(Self, General))
    case 'C' => Some(Pawn(Self, Cannon))
    case 'P' => Some(Pawn(Self, Soldier))
    case _ => None
  }

  /** The other direction: every letter the decoder accepts is the letter of
      the piece it decodes to, so GetFenChar is a bijection onto 14 letters. */
  lemma FenCharInverse(c: char)
    ensures PawnOfFenChar(c).Some? ==> GetFenChar(PawnOfFenChar(c).value) == c
  {
  }

  // ---------------------------------------------------------------------------
  // Splitting text

  /** String.Split on one separator character: the pieces between the
      separators, empty pieces included, so there is always one piece more
      than there are separators. */
  function Split(s: string, sep: char): (r: seq<string>)
    ensures |r| >= 1
  {
    if s == [] then [[]]
    else
      var r := Split(s[..|s| - 1], sep);
      if s[|s| - 1] == sep then r + [[]] else r[..|r| - 1] + [r[|r| - 1] + [s[|s| - 1]]]
  }

  /** Text without the separator is a single piece. */
  lemma {:induction false} SplitNone(s: string, sep: char)
    requires sep !in s
    ensures Split(s, sep) == [s]
  {
    if s != [] {
      var init := s[..|s| - 1];
      assert sep !in init;
      SplitNone(init, sep);
      assert init + [s[|s| - 1]] == s;
    }
  }

  /** A separator followed by text without one adds exactly that text as the
      last piece. */
  lemma {:induction false} SplitAppend(a: string, sep: char, t: string)
    requires sep !in t
    ensures Split(a + [sep] + t, sep) == Split(a, sep) + [t]
  {
    if t == [] {
      assert (a + [sep] + t)[..|a + [sep] + t| - 1] == a;
    } else {
      var s := a + [sep] + t;
      var init := t[..|t| - 1];
      assert s[..|s| - 1] == a + [sep] + init;
      SplitAppend(a, sep, init);
      assert init + [t[|t| - 1]] == t;
    }
  }

  // ---------------------------------------------------------------------------
  // GenerateFenString, as a value

  /** The digit of a run of 1..9 empty squares; nothing for no run. */
  function Pending(count: nat): (r: string)
    requires count <= 9
    ensures count == 0 ==> r == []
    ensures count > 0 ==> |r| == 1 && '1' <= r[0] <= '9' && r[0] as int - '0' as int == count
  {
    if count == 0 then [] else [('0' as int + count) as char]
  }

  /** The text of rank y from file x on, with `count` empty squares pending
      before file x. A piece flushes the pending run and writes its letter; an
      empty square lengthens the run. At the end of the rank the run is
      written only when `flush` holds. */
  function RankFrom(b: Board, y: int, x: int, count: nat, flush: bool): string
    requires 0 <= x <= Width && count <= x
    decreases Width - x
  {
    if x == Width then (if flush then Pending(count) else [])
    else
      match At(b, Location(x, y))
      case Some(p) => Pending(count) + [GetFenChar(p)] + RankFrom(b, y, x + 1, 0, flush)
      case None => RankFrom(b, y, x + 1, count + 1, flush)
  }

  /** The complete text of rank y. */
  function RankFen(b: Board, y: int): string {
    RankFrom(b, y, 0, 0, true)
  }

  /** Ranks 9 down to y, each complete, separated by '/'. */
  function Top(b: Board, y: int): string
    requires 0 <= y < Height
    decreases Height - y
  {
    if y == Height - 1 then RankFen(b, y) else Top(b, y + 1) + "/" + RankFen(b, y)
  }

  /** Ranks 9 down to y, the run that ends rank y not written. */
  function Unflushed(b: Board, y: int): string
    requires 0 <= y < Height
  {
    (if y == Height - 1 then [] else Top(b, y + 1) + "/") + RankFrom(b, y, 0, 0, false)
  }

  /** The side-to-move field and the four fields after it. */
  function CampSuffix(camp: Camp): string {
    match camp
    case Self => " w - - 0 1"
    case Opponent => " b - - 0 1"
  }

  /** GenerateFenString as written: the run of empty squares that ends rank
      0 is never written. */
  function FenAsWritten(b: Board, camp: Camp): string {
    Unflushed(b, 0) + CampSuffix(camp)
  }

  /** GenerateFenString with the final run written. */
  function FenString(b: Board, camp: Camp): string {
    Top(b, 0) + CampSuffix(camp)
  }

  // ---------------------------------------------------------------------------
  // GenerateFenString, the loops

  /** Nothing but run digits and piece letters appear in a rank's text. */
  predicate RankChar(c: char) {
    ('1' <= c <= '9') || PawnOfFenChar(c).Some?
  }

  /** No run digit or piece letter is a separator. */
  lemma RankCharNotSeparator(c: char)
    ensures RankChar(c) ==> c != '/' && c != ' '
  {
  }

  /** Text made only of run digits and piece letters. */
  ghost predicate RankText(s: string) {
    forall i :: 0 <= i < |s| ==> RankChar(s[i])
  }

  lemma RankTextAppend(a: string, c: string)
    requires RankText(a) && RankText(c)
    ensures RankText(a + c)
  {
  }

  /** A run digit and a piece letter are rank text. */
  lemma PendingAndLetterAreRankText(count: nat, p: Pawn)
    requires count <= 9
    ensures RankText([]) && RankText(Pending(count)) && RankText([GetFenChar(p)])
  {
  }

  /** The text of a rank from file x on is made of run digits and piece
      letters, and is empty only when nothing is left to write. */
  lemma {:induction false} RankFromChars(b: Board, y: int, x: int, count: nat)
    requires 0 <= x <= Width && count <= x
    decreases Width - x
    ensures RankText(RankFrom(b, y, x, count, true)) && RankText(RankFrom(b, y, x, count, false))
    ensures (count > 0 || x < Width) ==> |RankFrom(b, y, x, count, true)| >= 1
  {
    hide Pending, GetFenChar, PawnOfFenChar, At, RankFrom, RankText;
    RankFromStep(b, y, x, count);
    if x == Width {
      PendingAndLetterAreRankText(count, Pawn(Self, General));
    } else {
      match At(b, Location(x, y))
      case Some(p) =>
        RankFromChars(b, y, x + 1, 0);
        var c := [GetFenChar(p)];
        PendingAndLetterAreRankText(count, p);
        RankTextAppend(Pending(count), c);
        RankTextAppend(Pending(count) + c, RankFrom(b, y, x + 1, 0, true));
        RankTextAppend(Pending(count) + c, RankFrom(b, y, x + 1, 0, false));
      case None =>
        RankFromChars(b, y, x + 1, count + 1);
    }
  }

  /** Writing the run that ends the rank appends its digit, and nothing else. */
  lemma {:induction false} RankFromFlush(b: Board, y: int, x: int, count: nat)
    requires 0 <= x <= Width && count <= x
    decreases Width - x
    ensures RankFrom(b, y, x, count, true) == RankFrom(b, y, x, count, false) + Pending(Trailing(b, y, x, count))
  {
    hide Pending, GetFenChar, PawnOfFenChar, At, RankFrom;
    RankFromStep(b, y, x, count);
    if x < Width {
      if At(b, Location(x, y)).Some? {
        RankFromFlush(b, y, x + 1, 0);
      } else {
        RankFromFlush(b, y, x + 1, count + 1);
      }
    }
  }

  /** The length of the run that ends rank y, counting `count` squares
      pending before file x. */
  function Trailing(b: Board, y: int, x: int, count: nat): (r: nat)
    requires 0 <= x <= Width && count <= x
    decreases Width - x
    ensures r <= Width
  {
    if x == Width then count
    else if At(b, Location(x, y)).Some? then Trailing(b, y, x + 1, 0)
    else Trailing(b, y, x + 1, count + 1)
  }

  /** The run that ends a rank is empty exactly when its last square holds a
      piece. */
  lemma {:induction false} TrailingLastSquare(b: Board, y: int, x: int, count: nat)
    requires 0 <= x < Width && count <= x
    decreases Width - x
    ensures Trailing(b, y, x, count) == 0 <==> At(b, Location(Width - 1, y)).Some?
  {
    hide At;
    if x < Width - 1 {
      if At(b, Location(x, y)).Some? {
        TrailingLastSquare(b, y, x + 1, 0);
      } else {
        TrailingLastSquare(b, y, x + 1, count + 1);
      }
    }
  }

  /** Ranks 9 down to y are ranks 9 down to y + 1, a '/', and rank y. */
  lemma TopStep(b: Board, y: int)
    requires 0 <= y < Height - 1
    ensures Top(b, y) == Top(b, y + 1) + "/" + RankFen(b, y)
  {
  }

  /** The '/' before a rank is always written, for every rank text is non-empty. */
  lemma TopNonEmpty(b: Board, y: int)
    requires 0 <= y < Height
    ensures |Top(b, y)| >= 1
  {
    hide RankFrom, Pending, GetFenChar, PawnOfFenChar, At, Trailing;
    RankFromChars(b, y, 0, 0);
  }

  /** One file of a rank: a piece flushes the pending run and writes its
      letter, an empty square lengthens the run; past the last file only the
      flushed text writes the run. */
  lemma RankFromStep(b: Board, y: int, x: int, count: nat)
    requires 0 <= x <= Width && count <= x
    ensures x == Width ==> RankFrom(b, y, x, count, false) == [] && RankFrom(b, y, x, count, true) == Pending(count)
    ensures x < Width && At(b, Location(x, y)).Some? ==>
      var c := GetFenChar(At(b, Location(x, y)).value);
      RankFrom(b, y, x, count, false) == Pending(count) + [c] + RankFrom(b, y, x + 1, 0, false) &&
      RankFrom(b, y, x, count, true) == Pending(count) + [c] + RankFrom(b, y, x + 1, 0, true)
    ensures x < Width && At(b, Location(x, y)).None? ==>
      RankFrom(b, y, x, count, false) == RankFrom(b, y, x + 1, count + 1, false) &&
      RankFrom(b, y, x, count, true) == RankFrom(b, y, x + 1, count + 1, true)
  {
  }

  /** The inner loop of GenerateFenString over the files of rank y. */
  method ScanRank(b: Board, y: int, sb0: string) returns (sb: string, count: nat)
    requires 0 <= y < Height
    ensures count <= Width
    ensures sb == sb0 + RankFrom(b, y, 0, 0, false)
    ensures sb + Pending(count) == sb0 + RankFen(b, y)
  {
    hide At, Pending, GetFenChar, PawnOfFenChar, RankFrom;
    sb := sb0;
    count := 0;
    var x := 0;
    while x < Width
      invariant 0 <= x <= Width && count <= x
      invariant sb + RankFrom(b, y, x, count, false) == sb0 + RankFrom(b, y, 0, 0, false)
      invariant sb + RankFrom(b, y, x, count, true) == sb0 + RankFen(b, y)
    {
      RankFromStep(b, y, x, count);
      ghost var before := sb;
      ghost var pending := count;
      var pawn := GetPawn(b, Location(x, y)).value;
      if pawn.Some? {
        if count != 0 {
          sb := sb + Pending(count);
          count := 0;
        }
        sb := sb + [GetFenChar(pawn.value)];
        assert sb == before + Pending(pending) + [GetFenChar(pawn.value)];
      } else {
        count := count + 1;
      }
      x := x + 1;
    }
    RankFromStep(b, y, x, count);
  }

  /** The outer loop of GenerateFenString over the ranks, 9 down to 0: the
      text it builds and the run still pending when it ends. */
  method ScanRanks(b: Board) returns (sb: string, count: nat)
    ensures count <= Width
    ensures sb == Unflushed(b, 0)
    ensures sb + Pending(count) == Top(b, 0)
  {
    hide RankFrom, Pending, GetFenChar, PawnOfFenChar, At, GetPawn;
    sb := [];
    count := 0;
    var y := Height - 1;
    while y >= 0
      invariant -1 <= y < Height && count <= Width
      invariant y == Height - 1 ==> sb == [] && count == 0
      invariant y < Height - 1 ==> sb == Unflushed(b, y + 1) && sb + Pending(count) == Top(b, y + 1)
    {
      if count != 0 {
        sb := sb + Pending(count);
        count := 0;
      }
      if |sb| != 0 {
        sb := sb + "/";
      }
      ghost var start := sb;
      if y < Height - 1 {
        TopNonEmpty(b, y + 1);
        assert start == Top(b, y + 1) + "/";
      }
      sb, count := ScanRank(b, y, sb);
      y := y - 1;
    }
  }

  /** GenerateFenString as written. */
  method GenerateFenString(b: Board, currentCamp: Camp) returns (s: string)
    ensures s == FenAsWritten(b, currentCamp)
  {
    hide Top, Unflushed, RankFrom, CampSuffix, Pending;
    var sb, count := ScanRanks(b);
    s := sb + CampSuffix(currentCamp);
  }

  /** GenerateFenString with the pending run written after the last rank. */
  method GenerateFenStringFixed(b: Board, currentCamp: Camp) returns (s: string)
    ensures s == FenString(b, currentCamp)
  {
    hide Top, Unflushed, RankFrom, CampSuffix, Pending;
    var sb, count := ScanRanks(b);
    if count != 0 {
      sb := sb + Pending(count);
    }
    s := sb + CampSuffix(currentCamp);
  }

  // ---------------------------------------------------------------------------
  // Reading a position back

  /** A run of empty squares. */
  function Empties(n: nat): (r: seq<Option<Pawn>>)
    ensures |r| == n && forall i :: 0 <= i < n ==> r[i].None?
  {
    seq(n, _ => None)
  }

  /** The squares a rank's text stands for: a digit for that many empty
      squares, a letter for its piece; anything else is rejected. */
  function ParseRank(s: string): Option<seq<Option<Pawn>>> {
    if s == [] then Some([])
    else
      match ParseRank(s[1..])
      case None => None
      case Some(rest) =>
        if '1' <= s[0] <= '9' then Some(Empties(s[0] as int - '0' as int) + rest)
        else match PawnOfFenChar(s[0])
          case None => None
          case Some(p) => Some([Some(p)] + rest)
  }

  /** Reading two texts in a row reads each in turn. */
  lemma {:induction false} ParseRankAppend(a: string, c: string)
    ensures ParseRank(a + c) ==
      if ParseRank(a).Some? && ParseRank(c).Some? then Some(ParseRank(a).value + ParseRank(c).value) else None
  {
    hide PawnOfFenChar, Empties;
    if a == [] {
      assert a + c == c;
      if ParseRank(c).Some? {
        assert [] + ParseRank(c).value == ParseRank(c).value;
      }
    } else {
      assert (a + c)[0] == a[0];
      assert (a + c)[1..] == a[1..] + c;
      ParseRankAppend(a[1..], c);
      var pa := ParseRank(a[1..]);
      var pc := ParseRank(c);
      if pa.None? {
        assert ParseRank(a) == None;
        assert ParseRank(a + c) == None;
      } else if pc.None? {
        assert ParseRank(a + c) == None;
      } else if '1' <= a[0] <= '9' {
        var e := Empties(a[0] as int - '0' as int);
        assert ParseRank(a) == Some(e + pa.value);
        assert ParseRank(a + c) == Some(e + (pa.value + pc.value));
        assert e + (pa.value + pc.value) == (e + pa.value) + pc.value;
      } else if PawnOfFenChar(a[0]).Some? {
        var e := [Some(PawnOfFenChar(a[0]).value)];
        assert ParseRank(a) == Some(e + pa.value);
        assert ParseRank(a + c) == Some(e + (pa.value + pc.value));
        assert e + (pa.value + pc.value) == (e + pa.value) + pc.value;
      } else {
        assert ParseRank(a) == None;
        assert ParseRank(a + c) == None;
      }
    }
  }

  /** A run digit reads back as its empty squares. */
  lemma ParsePending(count: nat)
    requires count <= 9
    ensures ParseRank(Pending(count)) == Some(Empties(count))
  {
    if count > 0 {
      assert Pending(count)[1..] == [];
      assert Empties(count) + [] == Empties(count);
    } else {
      assert Empties(count) == [];
    }
  }

  /** The occupants of rank y from file x to the last file. */
  function Row(b: Board, y: int, x: int): (r: seq<Option<Pawn>>)
    requires 0 <= x <= Width
    ensures |r| == Width - x
  {
    seq(Width - x, k requires 0 <= k < Width - x => At(b, Location(x + k, y)))
  }

  /** A complete rank text reads back as the rank's squares. */
  lemma {:induction false} ParseRankFrom(b: Board, y: int, x: int, count: nat)
    requires 0 <= x <= Width && count <= x
    decreases Width - x
    ensures ParseRank(RankFrom(b, y, x, count, true)) == Some(Empties(count) + Row(b, y, x))
  {
    hide Pending, GetFenChar, PawnOfFenChar, At, Empties;
    if x == Width {
      assert Row(b, y, x) == [];
      ParsePending(count);
      assert Empties(count) + [] == Empties(count);
    } else {
      assert Row(b, y, x) == [At(b, Location(x, y))] + Row(b, y, x + 1);
      match At(b, Location(x, y))
      case Some(p) =>
        ParseRankFrom(b, y, x + 1, 0);
        var rest := RankFrom(b, y, x + 1, 0, true);
        var tail := [GetFenChar(p)] + rest;
        assert tail[1..] == rest;
        assert ParseRank(tail) == Some([Some(p)] + ParseRank(rest).value);
        assert Empties(0) + Row(b, y, x + 1) == Row(b, y, x + 1);
        ParseRankAppend(Pending(count), tail);
        ParsePending(count);
        assert RankFrom(b, y, x, count, true) == Pending(count) + tail;
        assert Empties(count) + ([Some(p)] + Row(b, y, x + 1)) == Empties(count) + Row(b, y, x);
      case None =>
        ParseRankFrom(b, y, x + 1, count + 1);
        assert Empties(count + 1) + Row(b, y, x + 1) == Empties(count) + Row(b, y, x);
    }
  }

  /** The ranks, each of exactly nine squares, joined in order. */
  function ParseRows(parts: seq<string>): Option<seq<Option<Pawn>>> {
    if parts == [] then Some([])
    else
      match ParseRows(parts[..|parts| - 1])
      case None => None
      case Some(init) =>
        match ParseRank(parts[|parts| - 1])
        case None => None
        case Some(row) => if |row| == Width then Some(init + row) else None
  }

  /** The squares of ranks 9 down to y, rank by rank, file by file. */
  function FenSquares(b: Board, y: int): (r: seq<Option<Pawn>>)
    requires 0 <= y < Height
    decreases Height - y
    ensures |r| == (Height - y) * Width
  {
    if y == Height - 1 then Row(b, y, 0) else FenSquares(b, y + 1) + Row(b, y, 0)
  }

  /** The position a FEN board field stands for: ten ranks of nine squares. */
  function ParseFenBoard(body: string): Option<seq<Option<Pawn>>> {
    var parts := Split(body, '/');
    if |parts| != Height then None else ParseRows(parts)
  }

  /** A decoded position: the 90 squares from rank 9 down, and the camp to move. */
  datatype Position = Position(squares: seq<Option<Pawn>>, turn: Camp)

  /** The board field and the side-to-move field of a FEN string. */
  function ParseFen(s: string): Option<Position> {
    var fields := Split(s, ' ');
    if |fields| < 2 then None
    else
      match ParseFenBoard(fields[0])
      case None => None
      case Some(squares) =>
        if fields[1] == "w" then Some(Position(squares, Self))
        else if fields[1] == "b" then Some(Position(squares, Opponent))
        else None
  }

  /** Ranks 9 down to y split into their texts, one per rank, without a
      space anywhere; and those texts read back as the squares. */
  lemma {:induction false} TopSplits(b: Board, y: int)
    requires 0 <= y < Height
    decreases Height - y
    ensures ' ' !in Top(b, y)
    ensures |Split(Top(b, y), '/')| == Height - y
    ensures ParseRows(Split(Top(b, y), '/')) == Some(FenSquares(b, y))
  {
    hide RankFrom, Pending, GetFenChar, PawnOfFenChar, At, Split, ParseRank, Row, Empties, Trailing;
    RankFromChars(b, y, 0, 0);
    ParseRankFrom(b, y, 0, 0);
    assert Empties(0) + Row(b, y, 0) == Row(b, y, 0);
    var r := RankFen(b, y);
    assert '/' !in r && ' ' !in r by {
      forall i | 0 <= i < |r|
        ensures r[i] != '/' && r[i] != ' '
      {
        assert RankChar(r[i]);
        RankCharNotSeparator(r[i]);
      }
    }
    if y == Height - 1 {
      SplitNone(r, '/');
      assert [r][..0] == [];
    } else {
      TopSplits(b, y + 1);
      SplitAppend(Top(b, y + 1), '/', r);
      var parts := Split(Top(b, y), '/');
      assert parts[..|parts| - 1] == Split(Top(b, y + 1), '/');
    }
  }

  /** The suffix is five fields, each after a space. */
  lemma SuffixFields(camp: Camp)
    ensures CampSuffix(camp) ==
      [' '] + SideField(camp) + [' '] + "-" + [' '] + "-" + [' '] + "0" + [' '] + "1"
  {
  }

  /** The side-to-move field. */
  function SideField(camp: Camp): string {
    if camp == Self then "w" else "b"
  }

  /** The five fields after the board field. */
  lemma SuffixSplits(body: string, camp: Camp)
    requires ' ' !in body
    ensures Split(body + CampSuffix(camp), ' ') == [body, SideField(camp), "-", "-", "0", "1"]
  {
    hide Split, CampSuffix;
    var w := SideField(camp);
    var s1 := body + [' '] + w;
    var s2 := s1 + [' '] + "-";
    var s3 := s2 + [' '] + "-";
    var s4 := s3 + [' '] + "0";
    var s5 := s4 + [' '] + "1";
    SplitNone(body, ' ');
    SplitAppend(body, ' ', w);
    SplitAppend(s1, ' ', "-");
    SplitAppend(s2, ' ', "-");
    SplitAppend(s3, ' ', "0");
    SplitAppend(s4, ' ', "1");
    SuffixFields(camp);
    assert body + CampSuffix(camp) == s5;
  }

  /** Square k of the decoded position is file k % 9 of rank 9 - k / 9. */
  lemma {:induction false} FenSquaresAt(b: Board, y: int, k: int)
    requires 0 <= y < Height && 0 <= k < (Height - y) * Width
    decreases Height - y
    ensures FenSquares(b, y)[k] == At(b, Location(k % Width, Height - 1 - k / Width))
  {
    hide At;
    if y < Height - 1 && k < (Height - 1 - y) * Width {
      FenSquaresAt(b, y + 1, k);
    }
  }

  /** The corrected string decodes back to the board, square by square, and
      to the camp to move; its board field has exactly nine '/' separators. */
  lemma FenRoundTrip(b: Board, camp: Camp)
    ensures |Split(Top(b, 0), '/')| == Height
    ensures ParseFen(FenString(b, camp)) == Some(Position(FenSquares(b, 0), camp))
    ensures forall k :: 0 <= k < Height * Width ==>
      FenSquares(b, 0)[k] == At(b, Location(k % Width, Height - 1 - k / Width))
  {
    hide Split, Top, ParseRows, FenSquares, CampSuffix, At, RankFrom, Row;
    TopSplits(b, 0);
    SuffixSplits(Top(b, 0), camp);
    forall k | 0 <= k < Height * Width
      ensures FenSquares(b, 0)[k] == At(b, Location(k % Width, Height - 1 - k / Width))
    {
      FenSquaresAt(b, 0, k);
    }
  }

  /** As written, the string is the corrected one whenever the last square
      of rank 0 holds a piece (the opening position, say), and otherwise its
      rank 0 accounts for fewer than nine squares, so it does not decode. */
  lemma FenAsWrittenDropsRun(b: Board, camp: Camp)
    ensures |Split(Unflushed(b, 0), '/')| == Height
    ensures At(b, Location(Width - 1, 0)).Some? ==> FenAsWritten(b, camp) == FenString(b, camp)
    ensures At(b, Location(Width - 1, 0)).None? ==> ParseFen(FenAsWritten(b, camp)) == None
  {
    hide Split, Top, FenSquares, CampSuffix, At, RankFrom, Row, Pending, Trailing, ParseRank, GetFenChar, PawnOfFenChar, Empties;
    RankFromChars(b, 0, 0, 0);
    RankFromFlush(b, 0, 0, 0);
    TrailingLastSquare(b, 0, 0, 0);
    TopSplits(b, 1);
    var u := RankFrom(b, 0, 0, 0, false);
    var t := Trailing(b, 0, 0, 0);
    assert '/' !in u && ' ' !in u by {
      forall i | 0 <= i < |u|
        ensures u[i] != '/' && u[i] != ' '
      {
        assert RankChar(u[i]);
        RankCharNotSeparator(u[i]);
      }
    }
    SplitAppend(Top(b, 1), '/', u);
    TopStep(b, 0);
    assert ' ' !in Unflushed(b, 0);
    SuffixSplits(Unflushed(b, 0), camp);
    if t > 0 {
      ParseRankFrom(b, 0, 0, 0);
      assert Empties(0) + Row(b, 0, 0) == Row(b, 0, 0);
      ParseRankAppend(u, Pending(t));
      ParsePending(t);
      var parts := Split(Unflushed(b, 0), '/');
      assert parts[|parts| - 1] == u;
    }
  }

  /** On the empty board the as-written string cannot be read back, while
      the flushed one can. */
  lemma EmptyBoardFen(camp: Camp)
    ensures ParseFen(FenAsWritten(EmptyBoard, camp)) == None
    ensures ParseFen(FenString(EmptyBoard, camp)).Some?
  {
    EmptyBoardConsistent();
    FenAsWrittenDropsRun(EmptyBoard, camp);
    FenRoundTrip(EmptyBoard, camp);
  }
}
