/**
 * The particle record: a mutable point mass with a position, a velocity, a
 * drawing radius, a group, a glow flag, and a colour that always matches its group.
 */
module Particles {

  /** An AWT colour, by its red, green and blue components. */
  datatype Color = Color(red: int, green: int, blue: int)

  const White: Color := Color(255, 255, 255)

  /** The colour of each group, in group order: red, orange, yellow, green, blue, purple. */
  const Palette: seq<Color> := [Color(255, 0, 0), Color(255, 140, 0), Color(255, 255, 0),
                                Color(0, 255, 0), Color(0, 0, 255), Color(156, 81, 182)]

  /** The colour a group is drawn in: its palette entry, or white for a group outside the palette. */
  function GroupColor(group: int): Color
  {
    if 0 <= group < |Palette| then Palette[group] else White
  }

  /** Only groups outside the palette are drawn white. */
  lemma GroupColorWhiteIff(group: int)
    ensures GroupColor(group) == White <==> !(0 <= group < |Palette|)
  {
  }

  /** The value held in a particle's fields at one moment. */
  datatype PState = PState(x: real, y: real, radius: int, color: Color,
                           xspeed: real, yspeed: real, group: int, glow: bool)

  class Particle {
    var x: real
    var y: real
    var radius: int
    var color: Color
    var xspeed: real
    var yspeed: real
    var group: int
    var glow: bool

    /** The colour is the one its group calls for. */
    ghost predicate Valid()
      reads this
    {
      color == GroupColor(group)
    }

    ghost function State(): PState
      reads this
    {
      PState(x, y, radius, color, xspeed, yspeed, group, glow)
    }

    constructor (x: real, y: real, radius: int, xspeed: real, yspeed: real, group: int, glow: bool)
      ensures Valid()
      ensures State() == PState(x, y, radius, GroupColor(group), xspeed, yspeed, group, glow)
    {
      this.x := x;
      this.y := y;
      this.radius := radius;
      var c := GetGroupColor(group);
      this.color := c;
      this.xspeed := xspeed;
      this.yspeed := yspeed;
      this.group := group;
      this.glow := glow;
    }

    /**
     * Scans the palette for the group's index and returns its colour, or white
     * when no index matches. It reads only the fixed palette, so it is static here.
     */
    static method GetGroupColor(group: int) returns (c: Color)
      ensures 0 <= group < |Palette| ==> c == Palette[group]
      ensures !(0 <= group < |Palette|) ==> c == White
      ensures c == GroupColor(group)
    {
      var i := 0;
      while i < |Palette|
        invariant 0 <= i <= |Palette|
        invariant group < 0 || i <= group
      {
        if i == group {
          return Palette[i];
        }
        i := i + 1;
      }
      return White;
    }

    function GetX(): real
      reads this
    {
      x
    }

    method SetX(x: real)
      modifies this`x
      ensures State() == old(State()).(x := x)
    {
      this.x := x;
    }

    function GetY(): real
      reads this
    {
      y
    }

    method SetY(y: real)
      modifies this`y
      ensures State() == old(State()).(y := y)
    {
      this.y := y;
    }

    function GetRadius(): int
      reads this
    {
      radius
    }

    method SetRadius(radius: int)
      modifies this`radius
      ensures State() == old(State()).(radius := radius)
    {
      this.radius := radius;
    }

    function GetColor(): Color
      reads this
    {
      color
    }

    function GetXspeed(): real
      reads this
    {
      xspeed
    }

    method SetXspeed(xspeed: real)
      modifies this`xspeed
      ensures State() == old(State()).(xspeed := xspeed)
    {
      this.xspeed := xspeed;
    }

    function GetYspeed(): real
      reads this
    {
      yspeed
    }

    method SetYspeed(yspeed: real)
      modifies this`yspeed
      ensures State() == old(State()).(yspeed := yspeed)
    {
      this.yspeed := yspeed;
    }

    function GetGroupNumber(): int
      reads this
    {
      group
    }

    /** Changes the group and recomputes the colour, so the particle stays valid. */
    method SetGroup(group: int)
      modifies this`color, this`group
      ensures Valid()
      ensures State() == old(State()).(group := group, color := GroupColor(group))
    {
      this.color := GetGroupColor(group);
      this.group := group;
    }

    function IsGlowEnabled(): bool
      reads this
    {
      glow
    }

    method SetGlow(glow: bool)
      modifies this`glow
      ensures State() == old(State()).(glow := glow)
    {
      this.glow := glow;
    }
  }
}
