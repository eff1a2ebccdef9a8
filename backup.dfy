/**
  Database backups: a timestamped SQLite copy in `backups/`, gzipped, sent
  to SharePoint when all five SharePoint settings are present, and old
  backups removed locally (after 7 days) and on SharePoint (after the
  configured retention).

  The `backups/` directory is a map from file name to its creation time
  (None where the file system gives none). The SharePoint service is
  represented by its answers, passed in as parameters.
 */
module Backup {
  import opened Common
  import opened Time
  import opened Errors
  import opened Config

  type Dir = map<string, Option<DateTime>>

  predicate IsSharepointConfigured(cfg: AppConfig) {
    && cfg.sharepointTenantId.Some? && cfg.sharepointClientId.Some? && cfg.sharepointClientSecret.Some?
    && cfg.sharepointSiteId.Some? && cfg.sharepointDriveId.Some?
  }

  /** The settings the tests use have no SharePoint settings, and backups off. */
  lemma TestConfigHasNoSharepoint()
    ensures !IsSharepointConfigured(TestConfig) && !TestConfig.backupEnabled
  {
  }

  /** Local backups are kept this many days. */
  const LocalRetentionDays: nat := 7

  /** `cms_backup_<YYYYmmdd_HHMMSS>.db`, the database copy. */
  function BackupFileName(now: DateTime): string
    requires Valid(now)
  {
    "cms_backup_" + CompactStampStr(now) + ".db"
  }

  function CompressedName(now: DateTime): string
    requires Valid(now)
  {
    BackupFileName(now) + ".gz"
  }

  /** Only files named `cms_backup_*.db.gz` are ever cleaned up. */
  predicate IsBackupName(n: string) {
    StartsWith(n, "cms_backup_") && EndsWith(n, ".db.gz")
  }

  /** The compressed copy is itself a backup the cleanups recognise. */
  lemma CompressedNameIsBackupName(now: DateTime)
    requires Valid(now)
    ensures IsBackupName(CompressedName(now))
  {
    var n := CompressedName(now);
    assert n == "cms_backup_" + (CompactStampStr(now) + ".db.gz");
    assert n == ("cms_backup_" + CompactStampStr(now)) + ".db.gz";
  }

  /** A local file the cleanup removes: a backup that is known to be older than the cutoff. */
  predicate Stale(dir: Dir, n: string, cutoff: DateTime)
    requires n in dir
  {
    IsBackupName(n) && dir[n].Some? && Lt(dir[n].value, cutoff)
  }

  /**
    `cleanup_old_local_backups`: remove exactly the stale backups, in
    whatever order the directory lists them; every other file stays as it
    was. Entries without a creation time are skipped.
   */
  method CleanupOldLocalBackups(dir: Dir, now: DateTime) returns (dir': Dir)
    requires Valid(now)
    ensures forall n :: n in dir' <==> n in dir && !Stale(dir, n, SubDays(now, LocalRetentionDays))
    ensures forall n :: n in dir' ==> dir'[n] == dir[n]
  {
    dir' := RemoveStale(dir, SubDays(now, LocalRetentionDays));
  }

  /** The loop of the cleanup: visit every entry once and remove it when it is stale. */
  method RemoveStale(dir: Dir, cutoff: DateTime) returns (dir': Dir)
    ensures forall n :: n in dir' <==> n in dir && !Stale(dir, n, cutoff)
    ensures forall n :: n in dir' ==> dir'[n] == dir[n]
  {
    var pending := dir.Keys;
    dir' := dir;
    while pending != {}
      invariant pending <= dir.Keys
      invariant forall n :: n in dir' ==> n in dir && dir'[n] == dir[n]
      invariant forall n :: n in dir ==> (n in dir' <==> n in pending || !Stale(dir, n, cutoff))
      decreases pending
    {
      var n :| n in pending;
      if Stale(dir, n, cutoff) {
        dir' := dir' - {n};
      }
      pending := pending - {n};
    }
  }

  /** A backup created now is never older than the cutoff, so the cleanup keeps it. */
  lemma FreshBackupIsNotStale(dir: Dir, now: DateTime)
    requires Valid(now) && CompressedName(now) in dir && dir[CompressedName(now)] == Some(now)
    ensures !Stale(dir, CompressedName(now), SubDays(now, LocalRetentionDays))
  {
    LeTotalOrder(SubDays(now, LocalRetentionDays), now, now);
  }

  /** SQLite's `VACUUM INTO` refuses to overwrite an existing file. */
  const VacuumTargetExists: string := "output file already exists"

  /**
    `backup_database`. Nothing happens when backups are disabled. Otherwise
    the copy is written, compressed (an existing `.gz` of the same second is
    truncated and keeps its creation time) and the uncompressed copy
    removed; the `.gz` is removed only when SharePoint is configured and the
    upload succeeded (an upload failure is logged, not returned). The local
    cleanup runs last.
   */
  method BackupDatabase(cfg: AppConfig, dir: Dir, now: DateTime, uploadSucceeds: bool) returns (dir': Dir, r: Result<()>)
    requires Valid(now)
    ensures !cfg.backupEnabled ==> dir' == dir && r == Ok(())
    ensures cfg.backupEnabled && BackupFileName(now) in dir ==> dir' == dir && r == Err(Database(VacuumTargetExists))
    ensures cfg.backupEnabled && BackupFileName(now) !in dir ==>
      var gz := CompressedName(now);
      && r == Ok(())
      && BackupFileName(now) !in dir'
      && (gz !in dir ==> (gz in dir' <==> !(IsSharepointConfigured(cfg) && uploadSucceeds)))
      && (gz in dir' && gz !in dir ==> dir'[gz] == Some(now))
      && (gz in dir ==>
            && (gz in dir' <==> !(IsSharepointConfigured(cfg) && uploadSucceeds) && !Stale(dir, gz, SubDays(now, LocalRetentionDays)))
            && (gz in dir' ==> dir'[gz] == dir[gz]))
      && (forall n :: n != BackupFileName(now) && n != gz ==>
            && (n in dir' <==> n in dir && !Stale(dir, n, SubDays(now, LocalRetentionDays)))
            && (n in dir' ==> dir'[n] == dir[n]))
  {
    if !cfg.backupEnabled {
      return dir, Ok(());
    }
    var db := BackupFileName(now);
    if db in dir {
      return dir, Err(Database(VacuumTargetExists));
    }
    var gz := CompressedName(now);
    var staged := StageBackup(cfg, dir, now, uploadSucceeds);
    if gz in staged && gz !in dir {
      CompressedNameIsBackupName(now);
      FreshBackupIsNotStale(staged, now);
    }
    dir' := CleanupOldLocalBackups(staged, now);
    if gz in staged && gz in dir {
      assert Stale(staged, gz, SubDays(now, LocalRetentionDays)) <==> Stale(dir, gz, SubDays(now, LocalRetentionDays));
    }
    assert forall n :: n in dir && n != db && n != gz ==>
      (Stale(staged, n, SubDays(now, LocalRetentionDays)) <==> Stale(dir, n, SubDays(now, LocalRetentionDays)));
    r := Ok(());
  }

  /**
    The steps before the cleanup: write the copy, compress it into the `.gz`
    (an existing one keeps its creation time), remove the copy, and remove
    the `.gz` after a successful upload. No other file is touched.
   */
  method StageBackup(cfg: AppConfig, dir: Dir, now: DateTime, uploadSucceeds: bool) returns (staged: Dir)
    requires Valid(now) && BackupFileName(now) !in dir
    ensures BackupFileName(now) !in staged
    ensures CompressedName(now) in staged <==> !(IsSharepointConfigured(cfg) && uploadSucceeds)
    ensures CompressedName(now) in staged ==>
      staged[CompressedName(now)] == if CompressedName(now) in dir then dir[CompressedName(now)] else Some(now)
    ensures forall n :: n != BackupFileName(now) && n != CompressedName(now) ==>
      (n in staged <==> n in dir) && (n in staged ==> staged[n] == dir[n])
  {
    var db := BackupFileName(now);
    var gz := CompressedName(now);
    assert gz != db by {
      assert |gz| == |db| + 3;
    }
    staged := dir[db := Some(now)];
    staged := staged[gz := if gz in dir then dir[gz] else Some(now)];
    staged := staged - {db};
    if IsSharepointConfigured(cfg) && uploadSucceeds {
      staged := staged - {gz};
    }
  }

  // ---------------------------------------------------------------------------
  // SharePoint cleanup

  /** One item of the backup folder's listing; each field may be missing or not a string. */
  datatype RemoteFile = RemoteFile(name: Option<string>, createdDateTime: Option<string>, id: Option<string>)

  /** The folder listing: its items, or a non-success status (the folder may not exist yet). */
  datatype Listing = Listed(files: seq<RemoteFile>) | NotListed

  /** A remote file the cleanup deletes. */
  predicate Expired(f: RemoteFile, cutoff: DateTime, parseRfc3339: string -> Option<DateTime>) {
    && f.name.Some? && IsBackupName(f.name.value)
    && f.createdDateTime.Some? && parseRfc3339(f.createdDateTime.value).Some?
    && Lt(parseRfc3339(f.createdDateTime.value).value, cutoff)
    && f.id.Some?
  }

  /** The ids of the expired files, in listing order. */
  function ExpiredIds(files: seq<RemoteFile>, cutoff: DateTime, parseRfc3339: string -> Option<DateTime>): (ids: seq<string>)
    ensures |ids| <= |files|
  {
    if files == [] then []
    else
      var init := ExpiredIds(files[..|files| - 1], cutoff, parseRfc3339);
      var f := files[|files| - 1];
      if Expired(f, cutoff, parseRfc3339) then init + [f.id.value] else init
  }

  /** Every id the cleanup picks belongs to an expired backup of the listing. */
  lemma {:induction false} ExpiredIdsAreExpired(files: seq<RemoteFile>, cutoff: DateTime,
                                                parseRfc3339: string -> Option<DateTime>, id: string)
    requires id in ExpiredIds(files, cutoff, parseRfc3339)
    ensures exists f :: f in files && Expired(f, cutoff, parseRfc3339) && f.id == Some(id)
    decreases |files|
  {
    var init := files[..|files| - 1];
    var f := files[|files| - 1];
    if id in ExpiredIds(init, cutoff, parseRfc3339) {
      ExpiredIdsAreExpired(init, cutoff, parseRfc3339, id);
      var g :| g in init && Expired(g, cutoff, parseRfc3339) && g.id == Some(id);
      assert g in files;
    } else {
      assert f in files;
    }
  }

  /**
    The delete loop: a delete request for each expired file, in listing
    order. `deleteFailure(id)` is the transport failure, if any, of the
    request for `id`; a delete the service refuses is ignored, but one that
    cannot be sent ends the loop with an error. `requested` are the ids a
    request was sent for.
   */
  method DeleteExpired(files: seq<RemoteFile>, cutoff: DateTime, parseRfc3339: string -> Option<DateTime>,
                       deleteFailure: string -> Option<string>)
    returns (requested: seq<string>, r: Result<()>)
    ensures var ids := ExpiredIds(files, cutoff, parseRfc3339);
      && |requested| <= |ids| && requested == ids[..|requested|]
      && (r.Ok? <==> forall k :: 0 <= k < |ids| ==> deleteFailure(ids[k]).None?)
      && (r.Ok? ==> requested == ids)
      && (r.Err? ==> requested != [] && deleteFailure(requested[|requested| - 1]).Some?
                     && r.error == Reqwest(deleteFailure(requested[|requested| - 1]).value))
  {
    requested := [];
    var i := 0;
    while i < |files|
      invariant 0 <= i <= |files|
      invariant requested == ExpiredIds(files[..i], cutoff, parseRfc3339)
      invariant forall k :: 0 <= k < |requested| ==> deleteFailure(requested[k]).None?
    {
      assert files[..i + 1][..i] == files[..i];
      var f := files[i];
      if Expired(f, cutoff, parseRfc3339) {
        var id := f.id.value;
        if deleteFailure(id).Some? {
          FailedDeleteIsExpired(files, i, cutoff, parseRfc3339, deleteFailure, requested);
          return requested + [id], Err(Reqwest(deleteFailure(id).value));
        }
        requested := requested + [id];
      }
      i := i + 1;
    }
    assert files[..|files|] == files;
    r := Ok(());
  }

  /**
    `cleanup_old_sharepoint_backups`: nothing unless SharePoint is
    configured; `token` is what fetching an access token gives and
    `listing` what listing the backup folder gives. The cutoff is the
    configured retention before now.
   */
  method CleanupOldSharepointBackups(cfg: AppConfig, now: DateTime, token: Result<string>, listing: Result<Listing>,
                                     parseRfc3339: string -> Option<DateTime>, deleteFailure: string -> Option<string>)
    returns (requested: seq<string>, r: Result<()>)
    requires Valid(now)
    ensures !IsSharepointConfigured(cfg) ==> requested == [] && r == Ok(())
    ensures IsSharepointConfigured(cfg) && token.Err? ==> requested == [] && r == Err(token.error)
    ensures IsSharepointConfigured(cfg) && token.Ok? && listing.Err? ==> requested == [] && r == Err(listing.error)
    ensures IsSharepointConfigured(cfg) && token.Ok? && listing == Ok(NotListed) ==> requested == [] && r == Ok(())
    ensures IsSharepointConfigured(cfg) && token.Ok? && listing.Ok? && listing.value.Listed? ==>
      var ids := ExpiredIds(listing.value.files, SubDays(now, cfg.backupRetentionDays), parseRfc3339);
      && |requested| <= |ids| && requested == ids[..|requested|]
      && (r.Ok? <==> forall k :: 0 <= k < |ids| ==> deleteFailure(ids[k]).None?)
      && (r.Ok? ==> requested == ids)
  {
    if !IsSharepointConfigured(cfg) {
      return [], Ok(());
    }
    if token.Err? {
      return [], Err(token.error);
    }
    if listing.Err? {
      return [], Err(listing.error);
    }
    if listing.value.NotListed? {
      return [], Ok(());
    }
    requested, r := DeleteExpired(listing.value.files, SubDays(now, cfg.backupRetentionDays), parseRfc3339, deleteFailure);
  }

  /** The request whose sending fails is for an expired file, and every earlier expired file's request succeeded. */
  lemma FailedDeleteIsExpired(files: seq<RemoteFile>, i: nat, cutoff: DateTime,
                              parseRfc3339: string -> Option<DateTime>, deleteFailure: string -> Option<string>,
                              requested: seq<string>)
    requires i < |files| && Expired(files[i], cutoff, parseRfc3339) && deleteFailure(files[i].id.value).Some?
    requires requested == ExpiredIds(files[..i], cutoff, parseRfc3339)
    ensures var ids, sent := ExpiredIds(files, cutoff, parseRfc3339), requested + [files[i].id.value];
      |sent| <= |ids| && sent == ids[..|sent|]
      && !(forall k :: 0 <= k < |ids| ==> deleteFailure(ids[k]).None?)
  {
    var ids, sent := ExpiredIds(files, cutoff, parseRfc3339), requested + [files[i].id.value];
    assert files[..i + 1][..i] == files[..i];
    assert sent == ExpiredIds(files[..i + 1], cutoff, parseRfc3339);
    ExpiredIdsPrefix(files, i + 1, cutoff, parseRfc3339);
    assert ids[|sent| - 1] == files[i].id.value;
  }

  /** The ids picked from a prefix of the listing are a prefix of the ids picked from all of it. */
  lemma {:induction false} ExpiredIdsPrefix(files: seq<RemoteFile>, i: nat, cutoff: DateTime,
                                            parseRfc3339: string -> Option<DateTime>)
    requires i <= |files|
    ensures var pre := ExpiredIds(files[..i], cutoff, parseRfc3339);
      var all := ExpiredIds(files, cutoff, parseRfc3339);
      |pre| <= |all| && all[..|pre|] == pre
    decreases |files| - i
  {
    if i < |files| {
      ExpiredIdsPrefix(files, i + 1, cutoff, parseRfc3339);
      assert files[..i + 1][..i] == files[..i];
    } else {
      assert files[..i] == files;
    }
  }

  // ---------------------------------------------------------------------------
  // Restore

  /** `restore_database`: only checks that the file exists; the database is not touched. */
  function RestoreDatabase(paths: set<string>, backupPath: string): (r: Result<()>)
    ensures r.Ok? <==> backupPath in paths
    ensures r.Err? ==> r.error == Internal("Backup file not found: " + backupPath)
  {
    if backupPath !in paths then Err(Internal("Backup file not found: " + backupPath)) else Ok(())
  }
}
