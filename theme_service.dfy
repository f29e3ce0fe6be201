/** services/themeService.ts: the theme record, the built-in fallback, the
    defaulting of a new theme, and the two-step activation. */
module ThemeService {
  import opened Wrappers
  import opened Tables

  /** `ThemeSettings` without `id` (the table key) and `is_active` (the row flag). */
  datatype ThemeSettings = ThemeSettings(
    name: Option<string>,
    headerText1: string,
    headerText2: string,
    backgroundStyle: string,
    timerLanguage: Option<string>,
    showGiftMarquee: bool,
    showGiftPopups: bool,
    cardRotationInterval: int,
    autoReloadInterval: Option<int>)

  /** What the admin form hands to `createTheme`: any field may be null or
      undefined at run time (None here). */
  datatype ThemeDraft = ThemeDraft(
    headerText1: string,
    headerText2: string,
    backgroundStyle: string,
    timerLanguage: Option<string>,
    showGiftMarquee: Option<bool>,
    showGiftPopups: Option<bool>,
    cardRotationInterval: Option<int>,
    autoReloadInterval: Option<int>)

  /** The theme used when no active theme can be read. */
  const DefaultTheme: Row<ThemeSettings> :=
    Row(ThemeSettings(None, "Ramadan Special", "150 Hours", "default", Some("bn"),
                      true, true, 6, Some(20)),
        true)

  /** `fetchActiveTheme`: the active row, or the built-in default on any error
      (including "no active row"). */
  function FetchActiveTheme(resp: Response<Row<ThemeSettings>>): (theme: Row<ThemeSettings>)
    ensures resp.Ok? ==> theme == resp.data
    ensures resp.Err? ==>
      && theme.isActive
      && theme.record.headerText1 == "Ramadan Special" && theme.record.headerText2 == "150 Hours"
      && theme.record.backgroundStyle == "default" && theme.record.timerLanguage == Some("bn")
      && theme.record.showGiftMarquee && theme.record.showGiftPopups
      && theme.record.cardRotationInterval == 6 && theme.record.autoReloadInterval == Some(20)
  {
    match resp
    case Ok(row) => row
    case Err(_) => DefaultTheme
  }

  /** JavaScript truthiness of an optional string: undefined, null and "" are falsy. */
  predicate Truthy(s: Option<string>) {
    s.Some? && s.value != ""
  }

  /** The record `createTheme` inserts. `timer_language` uses `||`, so every falsy
      value becomes 'bn'; the flags and intervals use `??`, so an explicit false
      or 0 is kept and only a missing value takes the default. `name` is not copied. */
  function NewThemeRecord(draft: ThemeDraft): (theme: ThemeSettings)
    ensures theme.name == None
    ensures theme.headerText1 == draft.headerText1 && theme.headerText2 == draft.headerText2
    ensures theme.backgroundStyle == draft.backgroundStyle
    ensures theme.timerLanguage == if Truthy(draft.timerLanguage) then draft.timerLanguage else Some("bn")
    ensures draft.showGiftMarquee.Some? ==> theme.showGiftMarquee == draft.showGiftMarquee.value
    ensures draft.showGiftMarquee.None? ==> theme.showGiftMarquee
    ensures draft.showGiftPopups.Some? ==> theme.showGiftPopups == draft.showGiftPopups.value
    ensures draft.showGiftPopups.None? ==> theme.showGiftPopups
    ensures draft.cardRotationInterval.Some? ==> theme.cardRotationInterval == draft.cardRotationInterval.value
    ensures draft.cardRotationInterval.None? ==> theme.cardRotationInterval == 6
    ensures draft.autoReloadInterval.Some? ==> theme.autoReloadInterval == draft.autoReloadInterval
    ensures draft.autoReloadInterval.None? ==> theme.autoReloadInterval == Some(20)
  {
    ThemeSettings(
      None,
      draft.headerText1,
      draft.headerText2,
      draft.backgroundStyle,
      if Truthy(draft.timerLanguage) then draft.timerLanguage else Some("bn"),
      draft.showGiftMarquee.GetOr(true),
      draft.showGiftPopups.GetOr(true),
      draft.cardRotationInterval.GetOr(6),
      Some(draft.autoReloadInterval.GetOr(20)))
  }

  /** `createTheme`: inserts the defaulted record, always inactive, under the id
      the database assigns; null on a failed write. */
  method CreateTheme(themes: Table<ThemeSettings>, newId: string, draft: ThemeDraft, dbError: Option<string>)
    returns (created: Option<Row<ThemeSettings>>)
    modifies themes
    ensures dbError.Some? || newId in old(themes.rows) ==> created == None && themes.rows == old(themes.rows)
    ensures dbError.None? && newId !in old(themes.rows) ==>
      && created == Some(Row(NewThemeRecord(draft), false))
      && themes.rows == old(themes.rows)[newId := Row(NewThemeRecord(draft), false)]
  {
    created := themes.Insert(newId, NewThemeRecord(draft), dbError);
  }

  /** `setActiveTheme` as written: deactivate every theme, then activate the one
      with `id`, never looking at either write's error. When both writes succeed
      that row is the only active one (none if the id is absent). A failed
      deactivate leaves the previously active rows active next to `id`; a failed
      activate leaves no row active. No row is added or removed and no field other
      than `is_active` changes. */
  method SetActiveTheme(themes: Table<ThemeSettings>, id: string,
                        deactivateError: Option<string>, activateError: Option<string>)
    modifies themes
    ensures themes.rows.Keys == old(themes.rows).Keys
    ensures Records(themes.rows) == Records(old(themes.rows))
    ensures ActiveIds(themes.rows) ==
      (if deactivateError.Some? then ActiveIds(old(themes.rows)) else {})
      + (if activateError.None? && id in old(themes.rows) then {id} else {})
    ensures deactivateError.None? && activateError.None? ==>
      ActiveIds(themes.rows) == if id in themes.rows then {id} else {}
  {
    themes.DeactivateAll(deactivateError);
    themes.ActivateWhere(id, activateError);
  }

  /** A theme table where "a" is active and "b" is not: setting "b" active while
      the deactivate write fails ends with both active. */
  method FailedDeactivateLeavesTwoActive() returns (themes: Table<ThemeSettings>)
    ensures ActiveIds(themes.rows) == {"a", "b"}
    ensures !SingleActive(themes.rows)
  {
    themes := new Table(map["a" := DefaultTheme.(isActive := true), "b" := DefaultTheme.(isActive := false)]);
    assert ActiveIds(themes.rows) == {"a"} by {
      assert "a" in ActiveIds(themes.rows) && "b" !in ActiveIds(themes.rows);
    }
    SetActiveTheme(themes, "b", Some("network error"), None);
    assert "a" in ActiveIds(themes.rows) && "b" in ActiveIds(themes.rows);
  }

  /** `setActiveTheme` with the deactivate's error checked: the activation is
      skipped when the deactivate failed. At most one theme is then active
      afterwards whenever at most one was before, whichever write fails. */
  method SetActiveThemeChecked(themes: Table<ThemeSettings>, id: string,
                               deactivateError: Option<string>, activateError: Option<string>)
    modifies themes
    ensures themes.rows.Keys == old(themes.rows).Keys
    ensures Records(themes.rows) == Records(old(themes.rows))
    ensures ActiveIds(themes.rows) ==
      if deactivateError.Some? then ActiveIds(old(themes.rows))
      else if activateError.None? && id in old(themes.rows) then {id} else {}
    ensures SingleActive(old(themes.rows)) ==> SingleActive(themes.rows)
  {
    themes.DeactivateAll(deactivateError);
    if deactivateError.None? {
      themes.ActivateWhere(id, activateError);
    }
  }

  /** `deleteTheme`: false on a failed write, true otherwise. */
  method DeleteTheme(themes: Table<ThemeSettings>, id: string, dbError: Option<string>) returns (ok: bool)
    modifies themes
    ensures ok <==> dbError.None?
    ensures themes.rows == if ok then old(themes.rows) - {id} else old(themes.rows)
  {
    ok := themes.Delete(id, dbError);
  }
}
