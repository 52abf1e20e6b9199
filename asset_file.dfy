/**
 * The asset record of bundles/asset/models/file.js as a state machine: a
 * File object whose fields the ingestion methods set step by step, and the
 * collaborators it talks to (file system, configuration, transport
 * registry, backends, record store), gathered in a Host whose trace records
 * every call made, in order.
 */
module AssetFile {
  import opened Options
  import opened AssetRecord
  import NodePath

  /**
   * A storage backend as the registry hands it out. Its code is not part of
   * this model; what it does is given by its fields: whether its push and
   * its remove succeed, and the address it reports for a record, which
   * may be null (None).
   */
  datatype Backend = Backend(pushOk: bool, removeOk: bool, urlFor: Fields -> Option<string>)

  /** One call to a collaborator, with its result where it has one. */
  datatype Event =
    | EnsuredDir(dir: string)
    | Wrote(path: string, bytes: Bytes)
    | Downloaded(link: string, path: string, bytes: Bytes)
    | Pushed(transport: string, hash: string, source: string, ok: bool)
    | Saved(record: Fields, ok: bool)
    | Unlinked(path: string)
    | BackendRemoved(transport: string, ok: bool)
    | MetadataRemoved(record: Fields, ok: bool)

  /** What one create or remove unit does to the host: its calls, the stored objects, its result. */
  datatype Effect = Effect(events: seq<Event>, objects: map<(string, string), Bytes>, outcome: Outcome)

  /** The exported view of a record (`sanitise`). */
  datatype Summary = Summary(
    id: Option<string>,
    url: Option<string>,
    name: Option<string>,
    hash: Option<string>,
    created: Option<string>,
    updated: Option<string>)

  /** The key a transport is registered under. */
  function RegisterKey(transport: string): string
  {
    "asset.transport." + transport
  }

  /** A registered backend exists for `transport` and accepts the push. */
  predicate PushSucceeds(registry: map<string, Backend>, transport: string)
  {
    RegisterKey(transport) in registry && registry[RegisterKey(transport)].pushOk
  }

  predicate HasSave(events: seq<Event>)
  {
    exists i :: 0 <= i < |events| && events[i].Saved?
  }

  /** Every save is preceded by a push that succeeded. */
  predicate SaveFollowsPush(events: seq<Event>)
  {
    forall i :: 0 <= i < |events| && events[i].Saved? ==>
      exists j :: 0 <= j < i && events[j].Pushed? && events[j].ok
  }

  /**
   * The 'file.create' unit: resolve the pinned transport, push the source's
   * bytes under the record's hash, then save the record. A push that cannot
   * start (no backend registered) or that fails ends the unit before save.
   */
  function CreateEffect(rec: Fields, registry: map<string, Backend>, objects: map<(string, string), Bytes>,
                        dbOk: bool, source: string, bytes: Bytes): (e: Effect)
    requires rec.hash.Some? && rec.transport.Some?
    ensures e.outcome == Done <==> PushSucceeds(registry, rec.transport.value) && dbOk
    ensures e.objects == if PushSucceeds(registry, rec.transport.value)
                         then objects[(rec.transport.value, rec.hash.value) := bytes]
                         else objects
    ensures RegisterKey(rec.transport.value) !in registry ==>
              e == Effect([], objects, Failed(TransportNotRegistered(rec.transport.value)))
    ensures e.outcome.Failed? ==>
              e.outcome.error in {TransportNotRegistered(rec.transport.value), PushFailed(rec.transport.value), PersistFailed}
  {
    var t, h := rec.transport.value, rec.hash.value;
    if RegisterKey(t) !in registry then
      Effect([], objects, Failed(TransportNotRegistered(t)))
    else if !registry[RegisterKey(t)].pushOk then
      Effect([Pushed(t, h, source, false)], objects, Failed(PushFailed(t)))
    else
      Effect([Pushed(t, h, source, true), Saved(rec, dbOk)], objects[(t, h) := bytes], if dbOk then Done else Failed(PersistFailed))
  }


  /**
   * The order the create unit keeps, which makes it persist at most once:
   * there is exactly one push when a backend is registered and none
   * otherwise, it goes to the pinned transport under the record's hash, at
   * most one save follows it, a save happens exactly when that push
   * succeeded, and no save comes before a successful push.
   */
  lemma CreateOrder(rec: Fields, registry: map<string, Backend>, objects: map<(string, string), Bytes>,
                    dbOk: bool, source: string, bytes: Bytes)
    requires rec.hash.Some? && rec.transport.Some?
    ensures var e := CreateEffect(rec, registry, objects, dbOk, source, bytes);
            |e.events| <= 2 &&
            (|e.events| >= 1 <==> RegisterKey(rec.transport.value) in registry) &&
            (|e.events| >= 1 ==> e.events[0].Pushed?) &&
            (forall i :: 1 <= i < |e.events| ==> e.events[i].Saved?) &&
            SaveFollowsPush(e.events) &&
            (HasSave(e.events) <==> PushSucceeds(registry, rec.transport.value)) &&
            forall ev :: ev in e.events && ev.Pushed? ==>
              ev == Pushed(rec.transport.value, rec.hash.value, source, ev.ok)
  {
    var events := CreateEffect(rec, registry, objects, dbOk, source, bytes).events;
    if PushSucceeds(registry, rec.transport.value) {
      assert events[0].Pushed? && events[0].ok && events[1].Saved?;
    }
  }

  /**
   * The 'file.remove' unit: ask the backend to remove the object, ignore
   * whatever it does (including there being no backend at all), then remove
   * the record. The result is the record store's alone.
   */
  function RemoveEffect(rec: Fields, transport: string, registry: map<string, Backend>,
                        objects: map<(string, string), Bytes>, dbOk: bool): (e: Effect)
    ensures |e.events| >= 1 && e.events[|e.events| - 1] == MetadataRemoved(rec, dbOk)
    ensures e.events[..|e.events| - 1] ==
              if RegisterKey(transport) in registry
              then [BackendRemoved(transport, registry[RegisterKey(transport)].removeOk)]
              else []
    ensures e.outcome == if dbOk then Done else Failed(PersistFailed)
    ensures e.objects == objects || (rec.hash.Some? && e.objects == objects - {(transport, rec.hash.value)})
  {
    var key := RegisterKey(transport);
    var tried := if key in registry then [BackendRemoved(transport, registry[key].removeOk)] else [];
    var removed := key in registry && registry[key].removeOk && rec.hash.Some?;
    Effect(tried + [MetadataRemoved(rec, dbOk)],
           if removed then objects - {(transport, rec.hash.value)} else objects,
           if dbOk then Done else Failed(PersistFailed))
  }

  /**
   * Removal swallows every backend outcome: two hosts that differ only in
   * their registry (a backend missing, failing or succeeding) still remove
   * the record and report the same result.
   */
  lemma RemoveIgnoresBackend(rec: Fields, transport: string, r1: map<string, Backend>, r2: map<string, Backend>,
                             objects: map<(string, string), Bytes>, dbOk: bool)
    ensures var e1, e2 := RemoveEffect(rec, transport, r1, objects, dbOk), RemoveEffect(rec, transport, r2, objects, dbOk);
            e1.outcome == e2.outcome && e1.events[|e1.events| - 1] == e2.events[|e2.events| - 1]
  {
  }

  /** The collaborators of the file model, and the trace of what was asked of them. */
  class Host {
    /** `global.appRoot` */
    const appRoot: string
    /** `config.get('asset.transport')`, fixed for the life of the host. */
    const config: Option<string>
    /** Backends by registry key (`this.eden.register`), fixed for the life of the host. */
    const registry: map<string, Backend>
    /** Files by path. */
    var fs: map<string, Bytes>
    /** Objects the backends hold, by (transport, hash). */
    var objects: map<(string, string), Bytes>
    /** Whether the record store accepts saves and removals. */
    var dbOk: bool
    var trace: seq<Event>

    constructor (appRoot: string, config: Option<string>, registry: map<string, Backend>,
                 fs: map<string, Bytes>, dbOk: bool)
      ensures this.appRoot == appRoot && this.config == config && this.registry == registry
      ensures this.fs == fs && this.dbOk == dbOk && objects == map[] && trace == []
    {
      this.appRoot := appRoot;
      this.config := config;
      this.registry := registry;
      this.fs := fs;
      this.dbOk := dbOk;
      objects := map[];
      trace := [];
    }

    /** The scratch directory staged uploads go to. */
    function TmpDir(): string
    {
      appRoot + "/data/cache/tmp"
    }

    /** The staged copy of the asset with this hash. */
    function TmpFile(hash: string): string
    {
      TmpDir() + "/" + hash
    }

    method EnsureDir(dir: string)
      modifies this`trace
      ensures trace == old(trace) + [EnsuredDir(dir)]
    {
      trace := trace + [EnsuredDir(dir)];
    }

    method WriteFile(path: string, bytes: Bytes)
      modifies this`fs, this`trace
      ensures fs == old(fs)[path := bytes]
      ensures trace == old(trace) + [Wrote(path, bytes)]
    {
      fs := fs[path := bytes];
      trace := trace + [Wrote(path, bytes)];
    }

    /**
     * The response body of `link`, piped into `path` until the response ends.
     * The whole body counts as written at that point, although the write
     * itself may still be in progress.
     */
    method Download(link: string, path: string, body: Bytes)
      modifies this`fs, this`trace
      ensures fs == old(fs)[path := body]
      ensures trace == old(trace) + [Downloaded(link, path, body)]
    {
      fs := fs[path := body];
      trace := trace + [Downloaded(link, path, body)];
    }

    method Unlink(path: string)
      modifies this`fs, this`trace
      ensures fs == old(fs) - {path}
      ensures trace == old(trace) + [Unlinked(path)]
    {
      fs := fs - {path};
      trace := trace + [Unlinked(path)];
    }

    method Push(transport: string, backend: Backend, hash: string, source: string) returns (ok: bool)
      requires source in fs
      modifies this`objects, this`trace
      ensures ok == backend.pushOk
      ensures objects == if ok then old(objects)[(transport, hash) := fs[source]] else old(objects)
      ensures trace == old(trace) + [Pushed(transport, hash, source, ok)]
    {
      ok := backend.pushOk;
      if ok {
        objects := objects[(transport, hash) := fs[source]];
      }
      trace := trace + [Pushed(transport, hash, source, ok)];
    }

    method Save(rec: Fields) returns (ok: bool)
      modifies this`trace
      ensures ok == dbOk
      ensures trace == old(trace) + [Saved(rec, ok)]
    {
      ok := dbOk;
      trace := trace + [Saved(rec, ok)];
    }

    method RemoveFromBackend(transport: string, backend: Backend, rec: Fields) returns (ok: bool)
      modifies this`objects, this`trace
      ensures ok == backend.removeOk
      ensures objects == if ok && rec.hash.Some? then old(objects) - {(transport, rec.hash.value)} else old(objects)
      ensures trace == old(trace) + [BackendRemoved(transport, ok)]
    {
      ok := backend.removeOk;
      if ok && rec.hash.Some? {
        objects := objects - {(transport, rec.hash.value)};
      }
      trace := trace + [BackendRemoved(transport, ok)];
    }

    method RemoveMetadata(rec: Fields) returns (ok: bool)
      modifies this`trace
      ensures ok == dbOk
      ensures trace == old(trace) + [MetadataRemoved(rec, ok)]
    {
      ok := dbOk;
      trace := trace + [MetadataRemoved(rec, ok)];
    }
  }

  /** The File model: one asset record. */
  class File {
    const host: Host
    var fields: Fields
    /** `_id`, `created_at` and `updated_at`, which only the record store sets. */
    var id: Option<string>
    var createdAt: Option<string>
    var updatedAt: Option<string>

    constructor (host: Host)
      ensures this.host == host && fields == Blank
      ensures id == None && createdAt == None && updatedAt == None
    {
      this.host := host;
      fields := Blank;
      id, createdAt, updatedAt := None, None, None;
    }

    /** `this.transport(true)`: the name of the transport that owns this record. */
    function TransportName(): string
      reads this, host
    {
      PinnedTransport(fields.transport, host.config)
    }

    /** `this.transport()`: the backend registered under that name, if any. */
    function Transport(): (b: Option<Backend>)
      reads this, host
      ensures b.Some? <==> RegisterKey(PinnedTransport(fields.transport, host.config)) in host.registry
      ensures b.Some? ==> b.value == host.registry[RegisterKey(PinnedTransport(fields.transport, host.config))]
    {
      var key := RegisterKey(TransportName());
      if key in host.registry then Some(host.registry[key]) else None
    }

    /**
     * `url()`: null when no backend resolves, otherwise whatever that
     * backend reports for the record (itself possibly null).
     */
    function Url(): (u: Option<string>)
      reads this, host
      ensures RegisterKey(PinnedTransport(fields.transport, host.config)) !in host.registry ==> u.None?
      ensures RegisterKey(PinnedTransport(fields.transport, host.config)) in host.registry ==>
                u == host.registry[RegisterKey(PinnedTransport(fields.transport, host.config))].urlFor(fields)
    {
      match Transport()
      case None => None
      case Some(backend) => backend.urlFor(fields)
    }

    /** `sanitise()`: the identifier, address, name, hash and timestamps, nothing else. */
    function Sanitise(): (s: Summary)
      reads this, host
      ensures s.url == Url()
      ensures s.id == id && s.name == fields.name && s.hash == fields.hash
      ensures s.created == createdAt && s.updated == updatedAt
    {
      Summary(id, Url(), fields.name, fields.hash, createdAt, updatedAt)
    }

    /**
     * `fromFile(location, name)`: refuse a missing source before touching
     * anything; otherwise stamp the fields and run the create unit.
     */
    method FromFile(location: string, name: Option<string>, freshHash: string) returns (res: Outcome)
      requires freshHash != ""
      modifies this`fields, host`objects, host`trace
      ensures location !in host.fs ==>
                res == Failed(SourceNotFound(location)) && fields == old(fields) &&
                host.objects == old(host.objects) && host.trace == old(host.trace)
      ensures location in host.fs && !Truthy(old(fields).ext) && name.None? ==>
                res == Failed(NameNotString) && fields == old(fields) &&
                host.objects == old(host.objects) && host.trace == old(host.trace)
      ensures location in host.fs && (Truthy(old(fields).ext) || name.Some?) ==>
                fields == Stamp(old(fields), name, freshHash, |host.fs[location]|, host.config) &&
                var e := CreateEffect(fields, host.registry, old(host.objects), host.dbOk, location, host.fs[location]);
                host.trace == old(host.trace) + e.events && host.objects == e.objects && res == e.outcome
      ensures res == Done ==> TransportName() == fields.transport.value && Transport().Some? &&
                              Url() == Transport().value.urlFor(fields)
    {
      if location !in host.fs {
        return Failed(SourceNotFound(location));
      }
      if !Truthy(fields.ext) && name.None? {
        return Failed(NameNotString);
      }
      ghost var before := fields;
      var ext := if Truthy(fields.ext) then fields.ext.value else ExtOf(name.value);
      fields := fields.(ext := Some(ext));
      var hash := OrElse(fields.hash, freshHash);
      fields := fields.(hash := Some(hash));
      fields := fields.(name := Some(if Truthy(name) then name.value else hash + ext));
      fields := fields.(size := Some(|host.fs[location]|));
      fields := fields.(transport := Some(TransportName()));
      assert fields == Stamp(before, name, freshHash, |host.fs[location]|, host.config);
      res := RunCreateUnit(location);
    }

    /** The callback of the 'file.create' hook: push through the pinned backend, then save. */
    method RunCreateUnit(location: string) returns (res: Outcome)
      requires location in host.fs
      requires fields.hash.Some? && Truthy(fields.transport)
      modifies host`objects, host`trace
      ensures var e := CreateEffect(fields, host.registry, old(host.objects), host.dbOk, location, host.fs[location]);
              host.trace == old(host.trace) + e.events && host.objects == e.objects && res == e.outcome
    {
      var backend := Transport();
      if backend.None? {
        return Failed(TransportNotRegistered(TransportName()));
      }
      var pushed := host.Push(TransportName(), backend.value, fields.hash.value, location);
      if !pushed {
        return Failed(PushFailed(TransportName()));
      }
      var saved := host.Save(fields);
      if !saved {
        return Failed(PersistFailed);
      }
      return Done;
    }

    /**
     * `fromBuffer(buffer, name)`: set `ext` and `hash`, stage the bytes at
     * the scratch file named by the hash, commit from there with fromFile,
     * and unlink the scratch file only when fromFile returned normally.
     */
    method FromBuffer(buffer: Bytes, name: Option<string>, freshHash: string) returns (res: Outcome)
      requires freshHash != ""
      modifies this`fields, host`fs, host`objects, host`trace
      ensures !Truthy(old(fields).ext) && name.None? ==>
                res == Failed(NameNotString) && fields == old(fields) && host.fs == old(host.fs) &&
                host.objects == old(host.objects) && host.trace == old(host.trace)
      ensures Truthy(old(fields).ext) || name.Some? ==>
                fields == Stamp(old(fields), name, freshHash, |buffer|, host.config)
      ensures Truthy(old(fields).ext) || name.Some? ==>
                var tmp := host.TmpFile(OrElse(old(fields).hash, freshHash));
                var e := CreateEffect(fields, host.registry, old(host.objects), host.dbOk, tmp, buffer);
                res == e.outcome && host.objects == e.objects &&
                host.trace == old(host.trace) + [EnsuredDir(host.TmpDir()), Wrote(tmp, buffer)] + e.events +
                              (if res == Done then [Unlinked(tmp)] else []) &&
                host.fs == if res == Done then old(host.fs) - {tmp} else old(host.fs)[tmp := buffer]
    {
      if !Truthy(fields.ext) && name.None? {
        return Failed(NameNotString);
      }
      IdentifyThenStamp(fields, name, freshHash, freshHash, |buffer|, host.config);
      var tmp := StageBuffer(buffer, name, freshHash);
      res := CommitStaged(tmp, name, freshHash);
    }

    /** The first two `set` calls of fromBuffer and fromURL: `ext` from the name, then `hash`. */
    method SetIdentity(name: Option<string>, freshHash: string)
      requires freshHash != ""
      requires Truthy(fields.ext) || name.Some?
      modifies this`fields
      ensures fields == Identify(old(fields), name, freshHash)
    {
      var ext := if Truthy(fields.ext) then fields.ext.value else ExtOf(name.value);
      fields := fields.(ext := Some(ext));
      fields := fields.(hash := Some(OrElse(fields.hash, freshHash)));
    }

    /** fromBuffer up to the commit: identity, then the bytes written to the scratch file. */
    method StageBuffer(buffer: Bytes, name: Option<string>, freshHash: string) returns (tmp: string)
      requires freshHash != ""
      requires Truthy(fields.ext) || name.Some?
      modifies this`fields, host`fs, host`trace
      ensures fields == Identify(old(fields), name, freshHash)
      ensures tmp == host.TmpFile(OrElse(old(fields).hash, freshHash))
      ensures host.fs == old(host.fs)[tmp := buffer]
      ensures host.trace == old(host.trace) + [EnsuredDir(host.TmpDir()), Wrote(tmp, buffer)]
    {
      SetIdentity(name, freshHash);
      ghost var identified := fields;
      tmp := host.TmpFile(fields.hash.value);
      host.EnsureDir(host.TmpDir());
      host.WriteFile(tmp, buffer);
      assert fields == identified;
    }

    /** fromURL up to the commit: identity, then the response body piped to the scratch file. */
    method StageDownload(link: string, body: Bytes, name: Option<string>, freshHash: string) returns (tmp: string)
      requires freshHash != ""
      requires Truthy(fields.ext) || name.Some?
      modifies this`fields, host`fs, host`trace
      ensures fields == Identify(old(fields), name, freshHash)
      ensures tmp == host.TmpFile(OrElse(old(fields).hash, freshHash))
      ensures host.fs == old(host.fs)[tmp := body]
      ensures host.trace == old(host.trace) + [EnsuredDir(host.TmpDir()), Downloaded(link, tmp, body)]
    {
      SetIdentity(name, freshHash);
      ghost var identified := fields;
      tmp := host.TmpFile(fields.hash.value);
      host.EnsureDir(host.TmpDir());
      host.Download(link, tmp, body);
      assert fields == identified;
    }

    /**
     * The common tail of fromBuffer and fromURL: commit from the staged
     * file with fromFile, then unlink it. There is no `finally`: when
     * fromFile throws, the staged file stays where it is.
     */
    method CommitStaged(tmp: string, name: Option<string>, freshHash: string) returns (res: Outcome)
      requires freshHash != ""
      requires tmp in host.fs
      requires Truthy(fields.hash) && tmp == host.TmpFile(fields.hash.value)
      requires Truthy(fields.ext) || name.Some?
      modifies this`fields, host`fs, host`objects, host`trace
      ensures fields == Stamp(old(fields), name, freshHash, |old(host.fs)[tmp]|, host.config)
      ensures var e := CreateEffect(fields, host.registry, old(host.objects), host.dbOk, tmp, old(host.fs)[tmp]);
              res == e.outcome && host.objects == e.objects &&
              host.trace == old(host.trace) + e.events + (if res == Done then [Unlinked(tmp)] else []) &&
              host.fs == if res == Done then old(host.fs) - {tmp} else old(host.fs)
    {
      res := FromFile(tmp, name, freshHash);
      if res == Done {
        host.Unlink(host.TmpFile(fields.hash.value));
      }
    }

    /**
     * `fromURL(link)`: name the asset after the last segment of the link's
     * path, set `ext` and `hash`, stage the response body at the scratch
     * file, commit from there, and unlink only when fromFile returned
     * normally. `pathname` is what the URL parser finds in `link`.
     */
    method FromURL(link: string, pathname: Option<string>, body: Bytes, freshHash: string) returns (res: Outcome)
      requires freshHash != ""
      modifies this`fields, host`fs, host`objects, host`trace
      ensures pathname.None? ==>
                res == Failed(PathnameMissing) && fields == old(fields) && host.fs == old(host.fs) &&
                host.objects == old(host.objects) && host.trace == old(host.trace)
      ensures pathname.Some? ==>
                fields == Stamp(old(fields), Some(NodePath.Basename(pathname.value)), freshHash, |body|, host.config)
      ensures pathname.Some? ==>
                var tmp := host.TmpFile(OrElse(old(fields).hash, freshHash));
                var e := CreateEffect(fields, host.registry, old(host.objects), host.dbOk, tmp, body);
                res == e.outcome && host.objects == e.objects &&
                host.trace == old(host.trace) + [EnsuredDir(host.TmpDir()), Downloaded(link, tmp, body)] + e.events +
                              (if res == Done then [Unlinked(tmp)] else []) &&
                host.fs == if res == Done then old(host.fs) - {tmp} else old(host.fs)[tmp := body]
    {
      if pathname.None? {
        return Failed(PathnameMissing);
      }
      var name := NodePath.Basename(pathname.value);
      IdentifyThenStamp(fields, Some(name), freshHash, freshHash, |body|, host.config);
      var tmp := StageDownload(link, body, Some(name), freshHash);
      res := CommitStaged(tmp, Some(name), freshHash);
    }

    /**
     * `remove()`: ask the owning backend to remove the object, swallowing
     * any error (a missing backend included), then remove the record.
     */
    method Remove() returns (res: Outcome)
      modifies host`objects, host`trace
      ensures var e := RemoveEffect(fields, TransportName(), host.registry, old(host.objects), host.dbOk);
              host.trace == old(host.trace) + e.events && host.objects == e.objects && res == e.outcome
    {
      var backend := Transport();
      if backend.Some? {
        var removed := host.RemoveFromBackend(TransportName(), backend.value, fields);
      }
      var ok := host.RemoveMetadata(fields);
      res := if ok then Done else Failed(PersistFailed);
    }
  }
}
