/** services/backgroundService.ts: background images, their single active row,
    and the storage object removed with a row. */
module BackgroundService {
  import opened Wrappers
  import opened Text
  import opened Tables

  /** `BackgroundImage` without `id` (the key), `is_active` (the row flag) and
      `created_at` (set and ordered by the database). */
  datatype Background = Background(name: string, imageUrl: string)

  /** `addBackground`: the new row is always inactive. */
  method AddBackground(backgrounds: Table<Background>, newId: string, name: string, imageUrl: string,
                       dbError: Option<string>)
    returns (added: Option<Row<Background>>)
    modifies backgrounds
    ensures dbError.Some? || newId in old(backgrounds.rows) ==> added == None && backgrounds.rows == old(backgrounds.rows)
    ensures dbError.None? && newId !in old(backgrounds.rows) ==>
      && added == Some(Row(Background(name, imageUrl), false))
      && backgrounds.rows == old(backgrounds.rows)[newId := Row(Background(name, imageUrl), false)]
  {
    added := backgrounds.Insert(newId, Background(name, imageUrl), dbError);
  }

  /** `setActiveBackground` as written: deactivate every background, then activate
      `id` when it is given and truthy, never looking at either write's error.
      When both writes succeed, null (or "") leaves every background inactive and
      otherwise exactly the row with that id is active (none if it is absent). A
      failed deactivate leaves the previously active rows active next to `id`. */
  method SetActiveBackground(backgrounds: Table<Background>, id: Option<string>,
                             deactivateError: Option<string>, activateError: Option<string>)
    modifies backgrounds
    ensures backgrounds.rows.Keys == old(backgrounds.rows).Keys
    ensures Records(backgrounds.rows) == Records(old(backgrounds.rows))
    ensures ActiveIds(backgrounds.rows) ==
      (if deactivateError.Some? then ActiveIds(old(backgrounds.rows)) else {})
      + (if id.Some? && id.value != "" && activateError.None? && id.value in old(backgrounds.rows)
         then {id.value} else {})
    ensures deactivateError.None? && activateError.None? ==>
      ActiveIds(backgrounds.rows) ==
        if id.Some? && id.value != "" && id.value in backgrounds.rows then {id.value} else {}
  {
    backgrounds.DeactivateAll(deactivateError);
    if id.Some? && id.value != "" {
      backgrounds.ActivateWhere(id.value, activateError);
    }
  }

  /** A background table where "a" is active and "b" is not: setting "b" active
      while the deactivate write fails ends with both active. */
  method FailedDeactivateLeavesTwoActive() returns (backgrounds: Table<Background>)
    ensures ActiveIds(backgrounds.rows) == {"a", "b"}
    ensures !SingleActive(backgrounds.rows)
  {
    backgrounds := new Table(map["a" := Row(Background("a", "a.png"), true),
                                 "b" := Row(Background("b", "b.png"), false)]);
    assert ActiveIds(backgrounds.rows) == {"a"} by {
      assert "a" in ActiveIds(backgrounds.rows) && "b" !in ActiveIds(backgrounds.rows);
    }
    SetActiveBackground(backgrounds, Some("b"), Some("network error"), None);
    assert "a" in ActiveIds(backgrounds.rows) && "b" in ActiveIds(backgrounds.rows);
  }

  /** `setActiveBackground` with the deactivate's error checked: the activation is
      skipped when the deactivate failed. At most one background is then active
      afterwards whenever at most one was before, whichever write fails. */
  method SetActiveBackgroundChecked(backgrounds: Table<Background>, id: Option<string>,
                                    deactivateError: Option<string>, activateError: Option<string>)
    modifies backgrounds
    ensures backgrounds.rows.Keys == old(backgrounds.rows).Keys
    ensures Records(backgrounds.rows) == Records(old(backgrounds.rows))
    ensures ActiveIds(backgrounds.rows) ==
      if deactivateError.Some? then ActiveIds(old(backgrounds.rows))
      else if id.Some? && id.value != "" && activateError.None? && id.value in old(backgrounds.rows)
      then {id.value} else {}
    ensures SingleActive(old(backgrounds.rows)) ==> SingleActive(backgrounds.rows)
  {
    backgrounds.DeactivateAll(deactivateError);
    if deactivateError.None? && id.Some? && id.value != "" {
      backgrounds.ActivateWhere(id.value, activateError);
    }
  }

  /** The storage object `deleteBackground` removes: the text after the last '/',
      or no removal at all when that text is empty. */
  function StorageNameToRemove(imageUrl: string): (name: Option<string>)
    ensures name.None? <==> imageUrl == [] || imageUrl[|imageUrl| - 1] == '/'
    ensures name.Some? ==> name.value == LastSegment(imageUrl, '/') && '/' !in name.value
    ensures name.Some? && '/' !in imageUrl ==> name.value == imageUrl
  {
    LastSegmentEmpty(imageUrl, '/');
    LastSegmentWhole(imageUrl, '/');
    var fileName := LastSegment(imageUrl, '/');
    if fileName != "" then Some(fileName) else None
  }

  /** `deleteBackground`: removes the storage object (when a name was derived) and
      the row; the result reflects only the database delete, never the storage call. */
  method DeleteBackground(backgrounds: Table<Background>, id: string, imageUrl: string, dbError: Option<string>)
    returns (removedFile: Option<string>, ok: bool)
    modifies backgrounds
    ensures removedFile == StorageNameToRemove(imageUrl)
    ensures ok <==> dbError.None?
    ensures backgrounds.rows == if ok then old(backgrounds.rows) - {id} else old(backgrounds.rows)
  {
    removedFile := StorageNameToRemove(imageUrl);
    ok := backgrounds.Delete(id, dbError);
  }
}
