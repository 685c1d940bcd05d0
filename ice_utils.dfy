// The shared concentration-to-colour rules (frontend/src/utils/iceUtils.js):
// clamping to [0, 100], the 1 % visibility threshold and the blue gradient.
module IceUtils {

  import opened IceGrid

  /** A display colour; r, g and b are the integers written into `rgba(...)`. */
  datatype Rgba = Rgba(r: int, g: int, b: int, opacity: real)

  /** `clampIce`: no data stays no data; anything else is clamped to [0, 100]. */
  function ClampIce(c: Sample): (r: Sample)
    ensures r.None? <==> c.None?
    ensures r.Some? ==> 0.0 <= r.value <= 100.0
    ensures c.Some? && 0.0 <= c.value <= 100.0 ==> r == c
  {
    match c
    case None => None
    case Some(x) => Some(if x > 100.0 then 100.0 else if x < 0.0 then 0.0 else x)
  }

  /** Clamping twice is clamping once. */
  lemma ClampIdempotent(c: Sample)
    ensures ClampIce(ClampIce(c)) == ClampIce(c)
  {
  }

  /** `isVisibleIce`: the clamped value reaches the 1 % threshold. Because clamping
      keeps 1 on the same side, this is the raw value reaching 1: 0.99 and
      negative values are invisible, 150 is visible. */
  function IsVisibleIce(c: Sample): (visible: bool)
    ensures visible <==> c.Some? && c.value >= 1.0
  {
    var value := ClampIce(c);
    if value.None? then false else value.value >= 1.0
  }

  /** The gradient for a clamped value v in [0, 1]: light blue at low
      concentration, dark blue at high. */
  function Gradient(v: real): Rgba
  {
    Rgba((200.0 * (1.0 - v)).Floor, (220.0 - 170.0 * v).Floor, (255.0 - 55.0 * v).Floor, 0.4 + v * 0.6)
  }

  /** `getIceColor`: a colour exactly for visible ice, with every channel inside
      its band: r in [0, 198], g in [50, 218], b in [200, 254], opacity in (0.4, 1]. */
  function GetIceColor(c: Sample): (color: Option<Rgba>)
    ensures color.Some? <==> IsVisibleIce(c)
    ensures color.Some? ==> 0 <= color.value.r <= 198 && 50 <= color.value.g <= 218
    ensures color.Some? ==> 200 <= color.value.b <= 254
    ensures color.Some? ==> 0.4 < color.value.opacity <= 1.0
  {
    var value := ClampIce(c);
    if value.None? then None
    else if !IsVisibleIce(value) then None
    else
      var v := value.value / 100.0;
      Some(Gradient(v))
  }

  /** The documented sample point: 50 % ice is rgba(100, 135, 227, 0.7). */
  lemma HalfIceColor()
    ensures GetIceColor(Some(50.0)) == Some(Rgba(100, 135, 227, 0.7))
  {
    assert (255.0 - 55.0 * 0.5).Floor == 227;
  }

  /** More ice never lightens a cell: between two visible concentrations the
      higher one has no larger r, g or b and no smaller opacity. */
  lemma IceColorDarkens(c1: real, c2: real)
    requires 1.0 <= c1 <= c2
    ensures GetIceColor(Some(c1)).Some? && GetIceColor(Some(c2)).Some?
    ensures GetIceColor(Some(c2)).value.r <= GetIceColor(Some(c1)).value.r
    ensures GetIceColor(Some(c2)).value.g <= GetIceColor(Some(c1)).value.g
    ensures GetIceColor(Some(c2)).value.b <= GetIceColor(Some(c1)).value.b
    ensures GetIceColor(Some(c1)).value.opacity <= GetIceColor(Some(c2)).value.opacity
  {
  }
}
