/**
 * The pure helpers of the browser client, src/client/js/app.js: the short
 * form of a wallet address, the test for a player without a name, the
 * world-to-screen translation `getPosition`, and the list of player cells
 * that `gameLoop` builds and sorts by mass before drawing them.
 */
module Client {
  import opened Wrappers

  /** The one-character ellipsis placed between the two ends of an address. */
  const ELLIPSIS: char := '…'
  const UNNAMED: string := "An unnamed cell"

  // ----- abbreviateAddress -----

  /**
   * `abbreviateAddress`: `null` (`None`), and any address shorter than 8
   * characters (the empty one included), is returned as it is; a longer one
   * becomes its first 4 characters, the ellipsis and its last 4 characters.
   */
  function AbbreviateAddress(address: Option<string>): (r: Option<string>)
    ensures address.None? ==> r.None?
    ensures address.Some? && |address.value| < 8 ==> r == address
    ensures address.Some? && |address.value| >= 8 ==>
              && r.Some? && |r.value| == 9
              && r.value[..4] == address.value[..4]
              && r.value[4] == ELLIPSIS
              && r.value[5..] == address.value[|address.value| - 4..]
  {
    match address
    case None => None
    case Some(a) =>
      if |a| < 8 then address
      else Some(a[..4] + [ELLIPSIS] + a[|a| - 4..])
  }

  /** Abbreviating an abbreviation changes nothing. */
  lemma AbbreviateIdempotent(address: Option<string>)
    ensures AbbreviateAddress(AbbreviateAddress(address)) == AbbreviateAddress(address)
  {
    if address.Some? && |address.value| >= 8 {
      var s := AbbreviateAddress(address).value;
      assert s == s[..4] + [s[4]] + s[5..];
    }
  }

  /** Two long addresses share their short form exactly when they share their first and last 4 characters. */
  lemma AbbreviateSeesOnlyEnds(a: string, b: string)
    requires |a| >= 8 && |b| >= 8
    ensures AbbreviateAddress(Some(a)) == AbbreviateAddress(Some(b))
            <==> a[..4] == b[..4] && a[|a| - 4..] == b[|b| - 4..]
  {
    var ra, rb := AbbreviateAddress(Some(a)).value, AbbreviateAddress(Some(b)).value;
    if ra == rb {
      assert a[..4] == ra[..4] == rb[..4] == b[..4];
      assert a[|a| - 4..] == ra[5..] == rb[5..] == b[|b| - 4..];
    }
  }

  /**
   * The short form is never longer than the address except for an address of
   * exactly 8 characters, which grows to 9; it is strictly shorter exactly
   * when the address has more than 9 characters.
   */
  lemma AbbreviateShortens(a: string)
    ensures |AbbreviateAddress(Some(a)).value| <= |a|
            <==> |a| < 8 || |a| >= 9
    ensures |AbbreviateAddress(Some(a)).value| < |a| <==> |a| > 9
  {
  }

  // ----- isUnnamedCell -----

  /** `isUnnamedCell`: a name with no character. */
  function IsUnnamedCell(name: string): (r: bool)
    ensures r <==> name == ""
  {
    |name| < 1
  }

  /** The name the chat and the leaderboard show: 'An unnamed cell' in place of an empty name. */
  function DisplayName(name: string): (r: string)
    ensures |r| > 0
    ensures !IsUnnamedCell(name) ==> r == name
    ensures IsUnnamedCell(name) ==> r == UNNAMED
  {
    if IsUnnamedCell(name) then UNNAMED else name
  }

  /** Every non-empty name is shown as it is, and showing a shown name changes nothing. */
  lemma DisplayNameStable(name: string)
    ensures DisplayName(DisplayName(name)) == DisplayName(name)
    ensures name != "" ==> DisplayName(name) == name
  {
  }

  // ----- getPosition -----

  datatype Point = Point(x: real, y: real)
  datatype Screen = Screen(width: real, height: real)

  /**
   * `getPosition`: where an entity at world position `entity` appears on a
   * screen centred on the player at `player`.
   */
  function GetPosition(entity: Point, player: Point, screen: Screen): Point {
    Point(entity.x - player.x + screen.width / 2.0, entity.y - player.y + screen.height / 2.0)
  }

  /** The inverse of `getPosition`: the world position shown at screen point `p`. */
  function WorldAt(p: Point, player: Point, screen: Screen): Point {
    Point(p.x + player.x - screen.width / 2.0, p.y + player.y - screen.height / 2.0)
  }

  /** The player itself is drawn at the centre of the screen. */
  lemma PlayerAtCentre(player: Point, screen: Screen)
    ensures GetPosition(player, player, screen) == Point(screen.width / 2.0, screen.height / 2.0)
  {
  }

  /** `getPosition` is a translation: screen offsets between two entities are their world offsets. */
  lemma PositionIsTranslation(a: Point, b: Point, player: Point, screen: Screen)
    ensures GetPosition(a, player, screen).x - GetPosition(b, player, screen).x == a.x - b.x
    ensures GetPosition(a, player, screen).y - GetPosition(b, player, screen).y == a.y - b.y
  {
  }

  /** `getPosition` and `WorldAt` undo each other, so two entities share a screen point only if they share a world point. */
  lemma PositionRoundTrip(e: Point, p: Point, player: Point, screen: Screen)
    ensures WorldAt(GetPosition(e, player, screen), player, screen) == e
    ensures GetPosition(WorldAt(p, player, screen), player, screen) == p
  {
  }

  // ----- The draw list of gameLoop -----

  /** The fields of a cell of a visible player that the draw list reads. */
  datatype UserCell = UserCell(x: real, y: real, mass: real, radius: real)

  /** A visible player as received in 'serverTellPlayerMove'. */
  datatype User = User(hue: real, name: string, cells: seq<UserCell>)

  /** A CSS colour `hsl(hue, saturation%, lightness%)`. */
  datatype Hsl = Hsl(hue: real, saturation: nat, lightness: nat)

  /** One entry of `cellsToDraw`. */
  datatype DrawCell = DrawCell(color: Hsl, borderColor: Hsl, mass: real, name: string, radius: real, x: real, y: real)

  /** The entry for cell `c` of user `u`: the user's colours and name, the cell's mass and radius, its screen position. */
  function Drawn(u: User, c: UserCell, player: Point, screen: Screen): DrawCell {
    var p := GetPosition(Point(c.x, c.y), player, screen);
    DrawCell(Hsl(u.hue, 100, 50), Hsl(u.hue, 100, 45), c.mass, u.name, c.radius, p.x, p.y)
  }

  /** The entries of one user, one per cell, in cell order. */
  function Row(u: User, player: Point, screen: Screen): (r: seq<DrawCell>)
    ensures |r| == |u.cells|
    ensures forall j :: 0 <= j < |u.cells| ==> r[j] == Drawn(u, u.cells[j], player, screen)
  {
    seq(|u.cells|, j requires 0 <= j < |u.cells| => Drawn(u, u.cells[j], player, screen))
  }

  /** The list the nested loops of `gameLoop` push: the rows of the users, in user order. */
  function DrawList(users: seq<User>, player: Point, screen: Screen): seq<DrawCell>
    decreases |users|
  {
    if |users| == 0 then []
    else DrawList(users[..|users| - 1], player, screen) + Row(users[|users| - 1], player, screen)
  }

  /** The number of cells of all the users. */
  function CellCount(users: seq<User>): nat
    decreases |users|
  {
    if |users| == 0 then 0 else CellCount(users[..|users| - 1]) + |users[|users| - 1].cells|
  }

  /** The draw list has one entry per cell of every user. */
  lemma {:induction false} DrawListLength(users: seq<User>, player: Point, screen: Screen)
    ensures |DrawList(users, player, screen)| == CellCount(users)
    decreases |users|
  {
    if |users| > 0 {
      DrawListLength(users[..|users| - 1], player, screen);
    }
  }

  /**
   * Every cell of every user has its entry in the draw list, and every entry
   * is the entry of some cell of some user.
   */
  lemma {:induction false} DrawListEntries(users: seq<User>, player: Point, screen: Screen)
    ensures forall i, j :: 0 <= i < |users| && 0 <= j < |users[i].cells| ==>
              Drawn(users[i], users[i].cells[j], player, screen) in DrawList(users, player, screen)
    ensures forall e :: e in DrawList(users, player, screen) ==>
              exists i, j :: 0 <= i < |users| && 0 <= j < |users[i].cells| && e == Drawn(users[i], users[i].cells[j], player, screen)
    decreases |users|
  {
    if |users| > 0 {
      var n := |users| - 1;
      var front := users[..n];
      var row := Row(users[n], player, screen);
      DrawListEntries(front, player, screen);
      assert DrawList(users, player, screen) == DrawList(front, player, screen) + row;
      forall i, j | 0 <= i < |users| && 0 <= j < |users[i].cells|
        ensures Drawn(users[i], users[i].cells[j], player, screen) in DrawList(users, player, screen)
      {
        if i < n {
          assert users[i] == front[i];
        } else {
          assert row[j] == Drawn(users[i], users[i].cells[j], player, screen);
        }
      }
      forall e | e in DrawList(users, player, screen)
        ensures exists i, j :: 0 <= i < |users| && 0 <= j < |users[i].cells| && e == Drawn(users[i], users[i].cells[j], player, screen)
      {
        if e in DrawList(front, player, screen) {
          var i, j :| 0 <= i < |front| && 0 <= j < |front[i].cells| && e == Drawn(front[i], front[i].cells[j], player, screen);
          assert front[i] == users[i];
        } else {
          var j :| 0 <= j < |row| && row[j] == e;
          assert e == Drawn(users[n], users[n].cells[j], player, screen);
        }
      }
    }
  }

  // ----- The sort by mass -----

  /** Lighter cells first, so that heavier cells are drawn over them. */
  predicate SortedByMass(s: seq<DrawCell>) {
    forall a, b :: 0 <= a < b < |s| ==> s[a].mass <= s[b].mass
  }

  /** `x` placed into `s` before the first entry at least as heavy. */
  function InsertByMass(x: DrawCell, s: seq<DrawCell>): (r: seq<DrawCell>)
    ensures |r| == |s| + 1
    ensures multiset(r) == multiset(s) + multiset{x}
    ensures r[0] == x || (|s| > 0 && r[0] == s[0])
    ensures SortedByMass(s) ==> SortedByMass(r)
    decreases |s|
  {
    if |s| == 0 then [x]
    else if x.mass <= s[0].mass then [x] + s
    else
      assert s == [s[0]] + s[1..];
      [s[0]] + InsertByMass(x, s[1..])
  }

  /**
   * `cellsToDraw.sort((a, b) => a.mass - b.mass)`: the same entries,
   * ordered by non-decreasing mass.
   */
  function SortByMass(s: seq<DrawCell>): (r: seq<DrawCell>)
    ensures |r| == |s|
    ensures multiset(r) == multiset(s)
    ensures SortedByMass(r)
    decreases |s|
  {
    if |s| == 0 then []
    else
      assert s == [s[0]] + s[1..];
      InsertByMass(s[0], SortByMass(s[1..]))
  }

  /**
   * The draw list of `gameLoop`: the nested loops push one entry per cell of
   * every user, then the list is sorted by mass.
   */
  method CellsToDraw(users: seq<User>, player: Point, screen: Screen) returns (cellsToDraw: seq<DrawCell>)
    ensures cellsToDraw == SortByMass(DrawList(users, player, screen))
    ensures |cellsToDraw| == CellCount(users)
    ensures multiset(cellsToDraw) == multiset(DrawList(users, player, screen))
    ensures SortedByMass(cellsToDraw)
  {
    cellsToDraw := [];
    var i := 0;
    while i < |users|
      invariant i <= |users|
      invariant cellsToDraw == DrawList(users[..i], player, screen)
    {
      var color := Hsl(users[i].hue, 100, 50);
      var borderColor := Hsl(users[i].hue, 100, 45);
      var j := 0;
      while j < |users[i].cells|
        invariant j <= |users[i].cells|
        invariant cellsToDraw == DrawList(users[..i], player, screen) + Row(users[i], player, screen)[..j]
      {
        var c := users[i].cells[j];
        assert Row(users[i], player, screen)[..j + 1] == Row(users[i], player, screen)[..j] + [Drawn(users[i], c, player, screen)];
        cellsToDraw := cellsToDraw + [DrawCell(color, borderColor, c.mass, users[i].name, c.radius,
                                               c.x - player.x + screen.width / 2.0, c.y - player.y + screen.height / 2.0)];
        j := j + 1;
      }
      assert users[..i + 1][..i] == users[..i];
      assert Row(users[i], player, screen)[..j] == Row(users[i], player, screen);
      i := i + 1;
    }
    assert users[..i] == users;
    DrawListLength(users, player, screen);
    cellsToDraw := SortByMass(cellsToDraw);
  }
}
