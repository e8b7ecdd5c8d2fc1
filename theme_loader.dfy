/** Theme palettes: sixteen named colour strings addressed by index, and the
    validity test a loaded theme must pass. */
module ThemeLoader {
  import opened Common

  /** A colour string the loader accepts: "#" and six more characters. */
  predicate IsColor(c: string)
  {
    |c| == 7 && c[0] == '#'
  }

  datatype ThemePalette = ThemePalette(
    bgDarkest: string, bgDark: string, bgDarkHighlight: string, borderMuted: string,
    textLight: string, bgLight: string, bgLightest: string, accentHighlight: string,
    accentPrimary: string, accentSecondary: string, accentTertiary: string, statusError: string,
    statusDanger: string, statusWarning: string, statusSuccess: string, statusSpecial: string)

  /** A default-constructed palette: every colour empty. */
  const EmptyPalette := ThemePalette("", "", "", "", "", "", "", "", "", "", "", "", "", "", "", "")

  /** ThemePalette::color_names. */
  const ColorNames: seq<string> := [
    "bg_darkest", "bg_dark", "bg_dark_highlight", "border_muted",
    "text_light", "bg_light", "bg_lightest", "accent_highlight",
    "accent_primary", "accent_secondary", "accent_tertiary", "status_error",
    "status_danger", "status_warning", "status_success", "status_special"]

  /** ThemePalette::at (const): the colour at an index, None for the
      out_of_range exception. */
  function At(p: ThemePalette, index: nat): Option<string>
  {
    match index
    case 0 => Some(p.bgDarkest)
    case 1 => Some(p.bgDark)
    case 2 => Some(p.bgDarkHighlight)
    case 3 => Some(p.borderMuted)
    case 4 => Some(p.textLight)
    case 5 => Some(p.bgLight)
    case 6 => Some(p.bgLightest)
    case 7 => Some(p.accentHighlight)
    case 8 => Some(p.accentPrimary)
    case 9 => Some(p.accentSecondary)
    case 10 => Some(p.accentTertiary)
    case 11 => Some(p.statusError)
    case 12 => Some(p.statusDanger)
    case 13 => Some(p.statusWarning)
    case 14 => Some(p.statusSuccess)
    case 15 => Some(p.statusSpecial)
    case _ => None
  }

  /** A write through the mutable ThemePalette::at: the palette with one
      field replaced, None for the out_of_range exception. */
  function WithAt(p: ThemePalette, index: nat, value: string): Option<ThemePalette>
  {
    match index
    case 0 => Some(p.(bgDarkest := value))
    case 1 => Some(p.(bgDark := value))
    case 2 => Some(p.(bgDarkHighlight := value))
    case 3 => Some(p.(borderMuted := value))
    case 4 => Some(p.(textLight := value))
    case 5 => Some(p.(bgLight := value))
    case 6 => Some(p.(bgLightest := value))
    case 7 => Some(p.(accentHighlight := value))
    case 8 => Some(p.(accentPrimary := value))
    case 9 => Some(p.(accentSecondary := value))
    case 10 => Some(p.(accentTertiary := value))
    case 11 => Some(p.(statusError := value))
    case 12 => Some(p.(statusDanger := value))
    case 13 => Some(p.(statusWarning := value))
    case 14 => Some(p.(statusSuccess := value))
    case 15 => Some(p.(statusSpecial := value))
    case _ => None
  }

  /** Exactly the indices below 16 are addressable, the names list has one
      name per addressable index, and the first and last names and fields
      pair up. */
  lemma AtRange(p: ThemePalette, index: nat)
    ensures At(p, index).Some? <==> index < |ColorNames|
    ensures |ColorNames| == 16
    ensures ColorNames[0] == "bg_darkest" && At(p, 0) == Some(p.bgDarkest)
    ensures ColorNames[15] == "status_special" && At(p, 15) == Some(p.statusSpecial)
  {
  }

  /** The mutable and the const at address the same field: reading back a
      written index gives the written value, every other index keeps its
      colour, and an index of 16 or more fails for writes as for reads. */
  lemma WriteThenRead(p: ThemePalette, index: nat, value: string, other: nat)
    ensures WithAt(p, index, value).Some? <==> At(p, index).Some?
    ensures WithAt(p, index, value).Some? ==> At(WithAt(p, index, value).value, index) == Some(value)
    ensures WithAt(p, index, value).Some? && other != index ==> At(WithAt(p, index, value).value, other) == At(p, other)
  {
  }

  /** Writing back the colour already at an index changes nothing. */
  lemma WriteSameValue(p: ThemePalette, index: nat)
    requires index < 16
    ensures WithAt(p, index, At(p, index).value) == Some(p)
  {
  }

  /** Every addressable colour is well formed. */
  predicate AllColors(p: ThemePalette)
  {
    forall i: nat :: i < 16 ==> At(p, i).Some? && IsColor(At(p, i).value)
  }

  datatype ThemeData = ThemeData(name: string, colors: ThemePalette)

  /** ThemeData::is_valid. */
  predicate IsValid(t: ThemeData)
  {
    AllColors(t.colors) && t.name != ""
  }

  /** A theme is valid exactly when it is named and each of its sixteen
      colours is a seven-character string starting with '#'; one bad colour
      or an empty name is enough to reject it, and an empty palette is
      never valid. */
  lemma ValidityCharacterised(t: ThemeData, k: nat)
    ensures IsValid(t) ==> t.name != "" && forall i: nat :: i < 16 ==> At(t.colors, i).Some? && IsColor(At(t.colors, i).value)
    ensures k < 16 && !IsColor(At(t.colors, k).value) ==> !IsValid(t)
    ensures !IsValid(ThemeData(t.name, EmptyPalette))
    ensures t.name == "" ==> !IsValid(t)
  {
    if k < 16 && !IsColor(At(t.colors, k).value) {
      assert !(At(t.colors, k).Some? && IsColor(At(t.colors, k).value));
    }
    assert At(EmptyPalette, 0) == Some("");
  }

  /** A named theme whose colours are all well formed is valid, and a write
      of a well-formed colour keeps it so. */
  lemma ValidityKept(t: ThemeData, index: nat, value: string)
    requires IsValid(t) && IsColor(value) && index < 16
    ensures IsValid(t.(colors := WithAt(t.colors, index, value).value))
  {
    var q := WithAt(t.colors, index, value).value;
    forall i: nat | i < 16
      ensures At(q, i).Some? && IsColor(At(q, i).value)
    {
      WriteThenRead(t.colors, index, value, i);
    }
  }
}

/** The dual-mode palette of newer theme files: a dark and a light palette
    of sixteen semantic colours each, and which modes a theme supports. */
module ThemeDual {
  import opened Common
  import ThemeLoader

  datatype ModePalette = ModePalette(
    appBg: string, panelBg: string, cardBg: string, cardAlt: string,
    border: string, text: string, textMuted: string, textSubtle: string,
    primary: string, secondary: string, tertiary: string, info: string,
    success: string, warning: string, danger: string, focus: string)

  const EmptyModePalette := ModePalette("", "", "", "", "", "", "", "", "", "", "", "", "", "", "", "")

  /** ModePalette::color_names. */
  const ModeColorNames: seq<string> := [
    "app_bg", "panel_bg", "card_bg", "card_alt",
    "border", "text", "text_muted", "text_subtle",
    "primary", "secondary", "tertiary", "info",
    "success", "warning", "danger", "focus"]

  /** ModePalette::at, None for the out_of_range exception. */
  function ModeAt(p: ModePalette, index: nat): Option<string>
  {
    match index
    case 0 => Some(p.appBg)
    case 1 => Some(p.panelBg)
    case 2 => Some(p.cardBg)
    case 3 => Some(p.cardAlt)
    case 4 => Some(p.border)
    case 5 => Some(p.text)
    case 6 => Some(p.textMuted)
    case 7 => Some(p.textSubtle)
    case 8 => Some(p.primary)
    case 9 => Some(p.secondary)
    case 10 => Some(p.tertiary)
    case 11 => Some(p.info)
    case 12 => Some(p.success)
    case 13 => Some(p.warning)
    case 14 => Some(p.danger)
    case 15 => Some(p.focus)
    case _ => None
  }

  /** Indices 0..15 are addressable and pair with the sixteen names, from
      app_bg to focus; 16 and above fail. */
  lemma ModeAtRange(p: ModePalette, index: nat)
    ensures ModeAt(p, index).Some? <==> index < |ModeColorNames|
    ensures |ModeColorNames| == 16
    ensures ModeColorNames[0] == "app_bg" && ModeColorNames[1] == "panel_bg" && ModeColorNames[15] == "focus"
    ensures ModeAt(p, 0) == Some(p.appBg) && ModeAt(p, 15) == Some(p.focus)
  {
  }

  /** ModePalette::is_valid: every colour well formed. */
  predicate ModeValid(p: ModePalette)
  {
    forall i: nat :: i < 16 ==> ModeAt(p, i).Some? && ThemeLoader.IsColor(ModeAt(p, i).value)
  }

  /** A palette with all sixteen colours set is valid; one with any colour
      left empty, such as a palette with only app_bg set, is not. */
  lemma ModeValidity(p: ModePalette, k: nat)
    ensures k < 16 && ModeAt(p, k) == Some("") ==> !ModeValid(p)
    ensures ModeValid(p) ==> ThemeLoader.IsColor(p.appBg) && ThemeLoader.IsColor(p.focus)
    ensures !ModeValid(EmptyModePalette.(appBg := "#111111"))
  {
    if k < 16 && ModeAt(p, k) == Some("") {
      assert !ThemeLoader.IsColor(ModeAt(p, k).value);
    }
    if ModeValid(p) {
      assert ModeAt(p, 0).Some? && ThemeLoader.IsColor(ModeAt(p, 0).value);
      assert ModeAt(p, 15).Some? && ThemeLoader.IsColor(ModeAt(p, 15).value);
    }
    assert ModeAt(EmptyModePalette.(appBg := "#111111"), 1) == Some("");
  }

  datatype ModeSupport = DualMode | DarkOnly | LightOnly

  datatype DualThemeData = DualThemeData(name: string, dark: ModePalette, light: ModePalette)

  predicate SupportsDark(t: DualThemeData) { ModeValid(t.dark) }

  predicate SupportsLight(t: DualThemeData) { ModeValid(t.light) }

  /** ThemeData::get_mode_support; None when neither palette is valid. */
  function GetModeSupport(t: DualThemeData): Option<ModeSupport>
  {
    if SupportsDark(t) && SupportsLight(t) then Some(DualMode)
    else if SupportsDark(t) then Some(DarkOnly)
    else if SupportsLight(t) then Some(LightOnly)
    else None
  }

  /** The classification names exactly the modes whose palette is valid:
      dual when both are, dark-only or light-only when one is. */
  lemma ModeSupportCharacterised(t: DualThemeData)
    ensures GetModeSupport(t) == Some(DualMode) <==> SupportsDark(t) && SupportsLight(t)
    ensures GetModeSupport(t) == Some(DarkOnly) <==> SupportsDark(t) && !SupportsLight(t)
    ensures GetModeSupport(t) == Some(LightOnly) <==> !SupportsDark(t) && SupportsLight(t)
    ensures GetModeSupport(t).None? <==> !SupportsDark(t) && !SupportsLight(t)
  {
  }
}
