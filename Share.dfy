/** The share-sheet screen (app/.../share/ShareBuddyActivity.kt): it reads the
    incoming share, saves it at most once per screen instance however often
    Save and Remind are pressed, and sets a reminder on the saved item. */
module Share {
  import opened Strings
  import opened Longs
  import opened Items
  import opened LinkCleaner
  import opened Store
  import opened Repo
  import opened Scheduler

  const ActionSend: string := "android.intent.action.SEND"
  const ActionSendMultiple: string := "android.intent.action.SEND_MULTIPLE"

  /** The parts of the incoming intent that `parseShare` reads.
      `extraStream` is absent when the stream extra is missing or is not a
      `Uri`; `extraStreams` is the multiple-stream list. */
  datatype ShareIntent = ShareIntent(
    action: Option<string>,
    mimeType: Option<string>,
    extraText: Option<string>,
    extraStream: Option<string>,
    extraStreams: Option<seq<string>>)

  /** What a save needs from outside: the calling package, the new row's
      UUID and creation time, the repository's collaborators, and whether
      the repository call throws (from `suggestLabel` or `upsert`) before
      its row is stored. */
  datatype SaveEnv = SaveEnv(
    fails: bool,
    callingPackage: Option<string>,
    id: string,
    now: int,
    parse: string -> Option<ParsedUrl>,
    suggestLabel: string -> Option<string>,
    thumbnail: string -> Option<string>,
    importOne: string -> Option<string>,
    ocr: string -> Option<string>)

  function MimeOf(i: ShareIntent): string
  {
    if i.mimeType.Some? then i.mimeType.value else ""
  }

  /** Which save `ensureSaved` performs: non-blank text wins, then a
      non-empty image list, else nothing. */
  datatype SaveKind = SaveText(trimmed: string) | SaveImageList(uris: seq<string>) | NothingToSave

  function ChooseSave(sharedText: Option<string>, sharedImages: seq<string>): (k: SaveKind)
    ensures k.SaveText? <==> sharedText.Some? && !IsBlank(sharedText.value)
    ensures k.SaveText? ==> k.trimmed == Trim(sharedText.value) && k.trimmed != []
    ensures k.SaveImageList? <==> (sharedText.None? || IsBlank(sharedText.value)) && sharedImages != []
    ensures k.SaveImageList? ==> k.uris == sharedImages
  {
    if sharedText.Some? && !IsBlank(sharedText.value) then
      TrimEmptyIffBlank(sharedText.value);
      SaveText(Trim(sharedText.value))
    else if sharedImages != [] then SaveImageList(sharedImages)
    else NothingToSave
  }

  /** The row a save of kind `k` stores. */
  function SavedRow(k: SaveKind, rowLabel: Option<string>, env: SaveEnv): Item
    requires !k.NothingToSave?
  {
    match k
    case SaveText(t) =>
      TextOrLinkItem(t, env.callingPackage, rowLabel, env.id, env.now, env.parse, env.suggestLabel, env.thumbnail)
    case SaveImageList(uris) =>
      ImagesItem(uris, env.callingPackage, rowLabel, env.id, env.now, env.importOne, env.ocr)
  }

  /** The reminder title: the first 80 characters of the shared text as
      received (untrimmed), else "New reminder". */
  function ShareTitle(sharedText: Option<string>): (title: string)
    ensures Utf16Length(title) <= 80
    ensures sharedText.Some? ==> StartsWith(sharedText.value, title)
    ensures sharedText.None? ==> title == "New reminder"
  {
    if sharedText.Some? then Take(sharedText.value, 80) else "New reminder"
  }

  /** The table after `ensureSaved`: a cached id, nothing to save, or a
      throwing save leave it as it was; otherwise the chosen row is stored
      under the new id. */
  function RowsAfterSave(rows: map<string, Item>, cached: Option<string>, k: SaveKind,
                         rowLabel: Option<string>, env: SaveEnv): (r: map<string, Item>)
    ensures r.Keys <= rows.Keys + {env.id}
    ensures cached.Some? ==> r == rows
  {
    if cached.Some? || k.NothingToSave? || env.fails then rows
    else rows[env.id := SavedRow(k, rowLabel, env)]
  }

  /** The id `ensureSaved` leaves cached: the one already cached, else the
      new row's id when the save stored a row, else none. */
  function CachedAfterSave(cached: Option<string>, k: SaveKind, env: SaveEnv): (r: Option<string>)
    ensures cached.Some? ==> r == cached
    ensures cached.None? && r.Some? ==> r.value == env.id
  {
    if cached.Some? then cached
    else if !k.NothingToSave? && !env.fails then Some(env.id)
    else None
  }

  /** How `onSave` ends: ignored while saving, "Saved", "Nothing to save",
      or with the save's exception escaping the coroutine. */
  datatype SaveOutcome = Ignored | Saved(id: string) | NothingSaved | Failed

  /** The repository call `ensureSaved` makes. */
  datatype SaveResult = Stored(item: Item) | NoSave | Threw

  class ShareSession {
    const repo: Repository
    var sharedText: Option<string>
    var sharedImages: seq<string>
    var labelText: string
    var lastSavedItemId: Option<string>
    var isSaving: bool
    /** How many rows this screen instance has created. */
    ghost var created: nat

    /** At most one row is ever created, and exactly when an id is cached. */
    ghost predicate Valid()
      reads this, repo.dao
    {
      && repo.dao.Valid()
      && created == (if lastSavedItemId.Some? then 1 else 0)
    }

    constructor(repo: Repository)
      requires repo.dao.Valid()
      ensures this.repo == repo && Valid()
      ensures sharedText.None? && sharedImages == [] && labelText == ""
      ensures lastSavedItemId.None? && !isSaving && created == 0
    {
      this.repo := repo;
      sharedText := None;
      sharedImages := [];
      labelText := "";
      lastSavedItemId := None;
      isSaving := false;
      created := 0;
    }

    /** `parseShare`: SEND with a `text…` type takes the text extra, SEND with
        an `image…` type takes the single stream, SEND_MULTIPLE takes a
        non-empty stream list; anything else changes nothing. */
    method ParseShare(i: Option<ShareIntent>)
      modifies this
      ensures labelText == old(labelText) && lastSavedItemId == old(lastSavedItemId)
      ensures isSaving == old(isSaving) && created == old(created)
      ensures i.None? || (i.value.action != Some(ActionSend) && i.value.action != Some(ActionSendMultiple)) ==>
        sharedText == old(sharedText) && sharedImages == old(sharedImages)
      ensures i.Some? && i.value.action == Some(ActionSend) && StartsWith(MimeOf(i.value), "text") ==>
        sharedText == i.value.extraText && sharedImages == old(sharedImages)
      ensures i.Some? && i.value.action == Some(ActionSend) && !StartsWith(MimeOf(i.value), "text") ==>
        sharedText == old(sharedText)
        && sharedImages == if StartsWith(MimeOf(i.value), "image") && i.value.extraStream.Some?
                           then [i.value.extraStream.value] else old(sharedImages)
      ensures i.Some? && i.value.action == Some(ActionSendMultiple) ==>
        sharedText == old(sharedText)
        && sharedImages == if i.value.extraStreams.Some? && i.value.extraStreams.value != []
                           then i.value.extraStreams.value else old(sharedImages)
    {
      if i.Some? {
        var intent := i.value;
        if intent.action == Some(ActionSend) {
          var mime := MimeOf(intent);
          if StartsWith(mime, "text") {
            sharedText := intent.extraText;
          } else if StartsWith(mime, "image") {
            if intent.extraStream.Some? {
              sharedImages := [intent.extraStream.value];
            }
          }
        } else if intent.action == Some(ActionSendMultiple) {
          if intent.extraStreams.Some? && intent.extraStreams.value != [] {
            sharedImages := intent.extraStreams.value;
          }
        }
      }
    }

    method OnLabelChange(s: string)
      modifies this
      ensures labelText == s
      ensures sharedText == old(sharedText) && sharedImages == old(sharedImages)
      ensures lastSavedItemId == old(lastSavedItemId) && isSaving == old(isSaving) && created == old(created)
    {
      labelText := s;
    }

    /** The Save and Remind buttons are enabled only while no save runs. */
    function SaveEnabled(): (b: bool)
      reads this
      ensures b <==> !isSaving
    {
      !isSaving
    }

    /** `ensureSaved`: a cached id is returned without touching the
        repository or `isSaving`; otherwise `isSaving` is raised, the chosen
        save runs once, its id is cached, and the `finally` lowers `isSaving`
        again, also when the save throws (`thrown`), in which case nothing is
        stored or cached. */
    method EnsureSaved(env: SaveEnv) returns (r: Option<string>, thrown: bool)
      requires Valid()
      modifies this, repo.dao
      ensures Valid()
      ensures sharedText == old(sharedText) && sharedImages == old(sharedImages) && labelText == old(labelText)
      ensures repo.dao.rows == RowsAfterSave(old(repo.dao.rows), old(lastSavedItemId),
                                             ChooseSave(sharedText, sharedImages), IfBlankNull(labelText), env)
      ensures lastSavedItemId == CachedAfterSave(old(lastSavedItemId), ChooseSave(sharedText, sharedImages), env)
      ensures thrown ==> r.None?
      ensures !thrown ==> r == lastSavedItemId
      ensures old(lastSavedItemId).Some? ==>
        && !thrown && r == old(lastSavedItemId)
        && isSaving == old(isSaving) && created == old(created)
      ensures old(lastSavedItemId).None? ==> !isSaving && SaveEnabled()
      ensures old(lastSavedItemId).None? && (ChooseSave(sharedText, sharedImages).NothingToSave? || env.fails) ==>
        && lastSavedItemId.None? && created == 0
        && (thrown <==> !ChooseSave(sharedText, sharedImages).NothingToSave?)
      ensures old(lastSavedItemId).None? && !ChooseSave(sharedText, sharedImages).NothingToSave? && !env.fails ==>
        && !thrown && r == Some(env.id) && created == 1
        && repo.dao.rows[env.id] == SavedRow(ChooseSave(sharedText, sharedImages), IfBlankNull(labelText), env)
    {
      if lastSavedItemId.Some? {
        return lastSavedItemId, false;
      }
      isSaving := true;
      var currentLabel := IfBlankNull(labelText);
      var saved := Save(ChooseSave(sharedText, sharedImages), currentLabel, env);
      match saved {
        case Threw =>
          r, thrown := None, true;
        case NoSave =>
          lastSavedItemId := None;
          r, thrown := None, false;
        case Stored(item) =>
          created := created + 1;
          lastSavedItemId := Some(item.id);
          r, thrown := lastSavedItemId, false;
      }
      isSaving := false;
    }

    /** The `when` of `ensureSaved`: the repository call for the chosen kind. */
    method Save(k: SaveKind, currentLabel: Option<string>, env: SaveEnv) returns (saved: SaveResult)
      requires repo.dao.Valid()
      modifies repo.dao
      ensures repo.dao.Valid()
      ensures repo.dao.rows == RowsAfterSave(old(repo.dao.rows), None, k, currentLabel, env)
      ensures k.NothingToSave? ==> saved == NoSave
      ensures !k.NothingToSave? && env.fails ==> saved == Threw
      ensures !k.NothingToSave? && !env.fails ==>
        saved == Stored(SavedRow(k, currentLabel, env)) && saved.item.id == env.id
    {
      if k.NothingToSave? {
        return NoSave;
      }
      if env.fails {
        return Threw;
      }
      match k
      case SaveText(t) =>
        var item := repo.SaveTextOrLink(t, env.callingPackage, currentLabel,
                                        env.id, env.now, env.parse, env.suggestLabel, env.thumbnail);
        saved := Stored(item);
      case SaveImageList(uris) =>
        var item := repo.SaveImages(uris, env.callingPackage, currentLabel,
                                    env.id, env.now, env.importOne, env.ocr);
        saved := Stored(item);
    }

    /** `onSave`: ignored while a save runs; otherwise saves (once) and
        reports the outcome. */
    method OnSave(env: SaveEnv) returns (outcome: SaveOutcome)
      requires Valid()
      modifies this, repo.dao
      ensures Valid()
      ensures sharedText == old(sharedText) && sharedImages == old(sharedImages) && labelText == old(labelText)
      ensures old(isSaving) ==>
        && outcome == Ignored && repo.dao.rows == old(repo.dao.rows)
        && lastSavedItemId == old(lastSavedItemId) && isSaving && created == old(created)
      ensures !old(isSaving) ==>
        && !isSaving && SaveEnabled()
        && lastSavedItemId == CachedAfterSave(old(lastSavedItemId), ChooseSave(sharedText, sharedImages), env)
        && repo.dao.rows == RowsAfterSave(old(repo.dao.rows), old(lastSavedItemId),
                                          ChooseSave(sharedText, sharedImages), IfBlankNull(labelText), env)
        && (outcome == Failed <==> old(lastSavedItemId).None? && !ChooseSave(sharedText, sharedImages).NothingToSave? && env.fails)
        && (outcome.Saved? <==> lastSavedItemId.Some?)
      ensures outcome.Saved? ==> lastSavedItemId == Some(outcome.id)
    {
      if isSaving {
        return Ignored;
      }
      var id, thrown := EnsureSaved(env);
      outcome := if thrown then Failed else if id.Some? then Saved(id.value) else NothingSaved;
    }

    /** `scheduleReminder`: save (once), then store `whenAt = now + millis`
        on the row and register the alarm for the same id and time. When
        there is no id, or the save throws, no reminder is set. */
    method ScheduleReminder(timeInMillis: int, deleteAfter: bool, env: SaveEnv, now: int, table: AlarmTable)
      returns (whenAt: Option<int>)
      requires Valid()
      modifies this, repo.dao, table
      ensures Valid()
      ensures sharedText == old(sharedText) && sharedImages == old(sharedImages) && labelText == old(labelText)
      ensures isSaving == (old(isSaving) && old(lastSavedItemId).Some?)
      ensures !old(isSaving) ==> SaveEnabled()
      ensures lastSavedItemId == CachedAfterSave(old(lastSavedItemId), ChooseSave(sharedText, sharedImages), env)
      ensures whenAt.Some? <==> lastSavedItemId.Some?
      ensures var saved := RowsAfterSave(old(repo.dao.rows), old(lastSavedItemId),
                                         ChooseSave(sharedText, sharedImages), IfBlankNull(labelText), env);
        whenAt.None? ==> repo.dao.rows == saved && table.slots == old(table.slots)
      ensures lastSavedItemId.Some? ==>
        var id := lastSavedItemId.value;
        var saved := RowsAfterSave(old(repo.dao.rows), old(lastSavedItemId),
                                   ChooseSave(sharedText, sharedImages), IfBlankNull(labelText), env);
        && whenAt == Some(Wrap64(now + timeInMillis))
        && repo.dao.rows == (if id in saved then saved[id := saved[id].(reminderAt := whenAt)] else saved)
        && ReminderSet(repo.dao.rows, table.slots, table.hash, id, whenAt.value)
        && table.slots == AfterSchedule(old(table.slots), table.hash,
             Alarm(id, ShareTitle(sharedText), whenAt.value, deleteAfter, IfBlankNull(labelText)))
    {
      var id, thrown := EnsureSaved(env);
      if thrown || id.None? {
        return None;
      }
      var at := Wrap64(now + timeInMillis);
      var title := ShareTitle(sharedText);
      var itemLabel := IfBlankNull(labelText);
      repo.SetReminder(id.value, Some(at));
      table.Schedule(id.value, title, at, deleteAfter, itemLabel);
      whenAt := Some(at);
    }
  }

  /** Save, then Remind on the same screen (the screen stays open after
      "Saved"): the reminder goes on the row the Save stored, and the two
      presses together store at most that one row. */
  method SaveThenRemind(s: ShareSession, saveEnv: SaveEnv, remindEnv: SaveEnv,
                        timeInMillis: int, deleteAfter: bool, now: int, table: AlarmTable)
    returns (outcome: SaveOutcome, whenAt: Option<int>)
    requires s.Valid() && !s.isSaving && s.lastSavedItemId.None?
    modifies s, s.repo.dao, table
    ensures s.Valid() && s.SaveEnabled()
    ensures s.repo.dao.rows.Keys <= old(s.repo.dao.rows.Keys) + {saveEnv.id, remindEnv.id}
    ensures outcome.Saved? ==>
      && outcome.id == saveEnv.id && s.lastSavedItemId == Some(saveEnv.id)
      && s.repo.dao.rows.Keys == old(s.repo.dao.rows.Keys) + {saveEnv.id}
      && whenAt == Some(Wrap64(now + timeInMillis))
      && s.repo.dao.rows[saveEnv.id].reminderAt == whenAt
      && ReminderSet(s.repo.dao.rows, table.slots, table.hash, saveEnv.id, whenAt.value)
    ensures outcome == NothingSaved ==> whenAt.None? && s.repo.dao.rows == old(s.repo.dao.rows)
  {
    outcome := s.OnSave(saveEnv);
    whenAt := s.ScheduleReminder(timeInMillis, deleteAfter, remindEnv, now, table);
  }

  // --- properties ----------------------------------------------------------

  /** A second `ensureSaved` after one that stored or found a row stores
      nothing more; the two together add at most the ids of their two
      attempts, and only the first attempt's id once it succeeded. */
  lemma SaveOnce(rows: map<string, Item>, cached: Option<string>, k: SaveKind,
                    rowLabel: Option<string>, first: SaveEnv, second: SaveEnv)
    ensures var r1 := RowsAfterSave(rows, cached, k, rowLabel, first);
            var c1 := CachedAfterSave(cached, k, first);
            && (c1.Some? ==> RowsAfterSave(r1, c1, k, rowLabel, second) == r1)
            && (cached.None? && c1.Some? ==> c1.value in r1 && r1.Keys == rows.Keys + {first.id})
            && RowsAfterSave(r1, c1, k, rowLabel, second).Keys <= rows.Keys + {first.id, second.id}
  {
  }


  /** The text row stores the shared text trimmed once, although it is
      trimmed both here and in the repository. */
  lemma SavedTextIsTrimmedShare(sharedText: string, labelText: string, env: SaveEnv)
    requires !IsBlank(sharedText)
    ensures SavedRow(ChooseSave(Some(sharedText), []), IfBlankNull(labelText), env).text == Some(Trim(sharedText))
  {
    var t := Trim(sharedText);
    TextOrLinkRules(t, env.callingPackage, IfBlankNull(labelText), env.id, env.now, env.parse, env.suggestLabel, env.thumbnail);
    TrimIdempotent(sharedText);
  }
}
