// DeviceCallers: the settings that locale-shots and the accessibility variants ask
// withState for, and that both keep the discipline the journal needs.

module DeviceCallers {
  import opened Text
  import opened DeviceState
  import opened DeviceSafety
  import opened DeviceOutcomes
  import opened DeviceRuns

  /** What locale-shots sets for a language tag and its Apple locale. */
  function LocaleSettings(t: Target, tag: string, appleLocale: string): Record<string> {
    if t.platform == "android" then Record([SystemLocales], map[SystemLocales := tag])
    else Record([AppleLanguages, AppleLocale], map[AppleLanguages := tag, AppleLocale := appleLocale])
  }

  datatype Variant = Baseline | LargeText(fontScale: string) | BoldText | Dark

  /** What a pass of the accessibility variants sets; None where the platform cannot. */
  function VariantSettings(android: bool, v: Variant): Option<Record<string>> {
    match v
    case Baseline => Some(Record([], map[]))
    case LargeText(scale) =>
      if android then Some(Record([FontScale], map[FontScale := scale]))
      else Some(Record([UiContentSize], map[UiContentSize := "accessibility-extra-extra-extra-large"]))
    case BoldText =>
      if android then Some(Record([FontWeightAdjustment], map[FontWeightAdjustment := "300"])) else None
    case Dark =>
      if android then Some(Record([UiModeNight], map[UiModeNight := "yes"]))
      else Some(Record([UiAppearance], map[UiAppearance := "dark"]))
  }

  /** A pass of either caller on a target. */
  datatype Shot = InLocale(tag: string, appleLocale: string) | InVariant(v: Variant)

  function DomainOf(s: Shot): Domain {
    if s.InLocale? then Locale else Display
  }

  function SettingsOf(t: Target, s: Shot): Option<Record<string>> {
    match s
    case InLocale(tag, appleLocale) => Some(LocaleSettings(t, tag, appleLocale))
    case InVariant(v) => VariantSettings(t.platform == "android", v)
  }

  /** The call a pass makes, ending as its own work ends. */
  function CallOf(t: Target, s: Shot, fn: Outcome<int>): Op
    requires SettingsOf(t, s).Some?
  {
    WithStateOp(t, DomainOf(s), SettingsOf(t, s).value, fn)
  }

  /** Every pass asks for settings of its own domain only, so all it owes is that none of its entries is still there. */
  lemma CallersAreDisciplined(h: History, t: Target, s: Shot, fn: Outcome<int>, script: seq<Io>)
    requires SettingsOf(t, s).Some?
    ensures Disciplined(h, Event(CallOf(t, s, fn), script)) <==>
      (if s.InLocale? then "locale:" + t.id else "display:" + t.id) !in h.w.journal
  {
    assert KeyOf(Locale, t.id) == "locale:" + t.id && KeyOf(Display, t.id) == "display:" + t.id;
  }

  /** No pass of one caller touches a setting of the other. */
  lemma PassesAreApart(t: Target, a: Shot, b: Shot, n: SettingName)
    requires SettingsOf(t, a).Some? && SettingsOf(t, b).Some? && a.InLocale? && b.InVariant?
    ensures !(n in SettingsOf(t, a).value.order && n in SettingsOf(t, b).value.order)
  {
  }
}
