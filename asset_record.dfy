/**
 * The field rules of the asset record (bundles/asset/models/file.js), as
 * pure functions over a snapshot of the record's fields. JavaScript's `||`
 * is modelled exactly: an absent field and an empty string are both falsy,
 * so an empty `ext` or `hash` counts as "not set".
 */
module AssetRecord {
  import opened Options
  import opened JsString
  import NodePath

  type Bytes = seq<bv8>

  /** The fields the file model reads and writes with `get`/`set`. */
  datatype Fields = Fields(
    ext: Option<string>,
    hash: Option<string>,
    name: Option<string>,
    size: Option<nat>,
    transport: Option<string>)

  /** A record nothing has been set on yet. */
  const Blank := Fields(None, None, None, None, None)

  /** The transport used when neither the record nor the configuration names one. */
  const DefaultTransport := "local"

  /** What a failed ingestion or removal throws. */
  datatype Error =
    | SourceNotFound(location: string)        // fromFile's own "does not exist" error
    | NameNotString                           // path.extname(undefined) throws a TypeError
    | PathnameMissing                         // path.basename(null) throws a TypeError
    | TransportNotRegistered(transport: string) // undefined.push(...) throws a TypeError
    | PushFailed(transport: string)           // the backend's push rejected
    | PersistFailed                           // the record store's save or remove rejected

  datatype Outcome = Done | Failed(error: Error)

  /** JavaScript truthiness of an optional string: present and non-empty. */
  predicate Truthy(v: Option<string>)
  {
    v.Some? && v.value != ""
  }

  /** `v || fallback` */
  function OrElse(v: Option<string>, fallback: string): string
  {
    if Truthy(v) then v.value else fallback
  }

  /** `path.extname(name).replace('.', '')`: the extension of `name` without its dot. */
  function ExtOf(name: string): string
  {
    RemoveFirst(NodePath.Extname(name), '.')
  }

  /**
   * The stored extension holds no '.' at all. It is empty when `extname` is
   * empty, and otherwise `extname` is exactly "." followed by it (so a name
   * ending in a bare '.' gets the empty extension).
   */
  lemma ExtOfIsExtname(name: string)
    ensures '.' !in ExtOf(name)
    ensures NodePath.Extname(name) == "" ==> ExtOf(name) == ""
    ensures NodePath.Extname(name) != "" ==> NodePath.Extname(name) == "." + ExtOf(name)
  {
    var e := NodePath.Extname(name);
    NodePath.ExtnameFacts(name);
    if e != "" {
      assert e == "." + e[1..];
    }
  }

  /**
   * `this.get('transport') || config.get('asset.transport') || 'local'`:
   * the recorded transport, else the configured one, else "local". The
   * result is never empty, so once it is recorded it is the recorded one.
   */
  function PinnedTransport(recorded: Option<string>, configured: Option<string>): (t: string)
    ensures t != ""
    ensures Truthy(recorded) ==> t == recorded.value
    ensures !Truthy(recorded) && Truthy(configured) ==> t == configured.value
    ensures !Truthy(recorded) && !Truthy(configured) ==> t == DefaultTransport
  {
    OrElse(recorded, OrElse(configured, DefaultTransport))
  }

  /**
   * Once a transport is pinned into the record, later resolution ignores
   * the configuration: a changed default cannot re-route the asset.
   */
  lemma PinnedTransportIsStable(recorded: Option<string>, configured: Option<string>, later: Option<string>)
    ensures PinnedTransport(Some(PinnedTransport(recorded, configured)), later)
         == PinnedTransport(recorded, configured)
  {
  }

  /**
   * The first two `set` calls of fromBuffer, fromURL and fromFile: `ext`
   * is derived from `name` and `hash` takes the fresh value, each only when
   * the field is falsy. Deriving `ext` needs a name only when no `ext` is set.
   */
  function Identify(f: Fields, name: Option<string>, freshHash: string): (g: Fields)
    requires Truthy(f.ext) || name.Some?
    requires freshHash != ""
    ensures Truthy(f.ext) ==> g.ext == f.ext
    ensures !Truthy(f.ext) ==> g.ext == Some(ExtOf(name.value))
    ensures Truthy(f.hash) ==> g.hash == f.hash
    ensures !Truthy(f.hash) ==> g.hash == Some(freshHash)
    ensures Truthy(g.hash)
    ensures g.name == f.name && g.size == f.size && g.transport == f.transport
  {
    var ext := if Truthy(f.ext) then f.ext.value else ExtOf(name.value);
    f.(ext := Some(ext), hash := Some(OrElse(f.hash, freshHash)))
  }

  /**
   * The five `set` calls of fromFile: identity as in Identify, then the
   * supplied name or, when it is falsy, the hash immediately followed by the
   * extension; the source's byte length; and the transport pinned from the
   * record or the configuration.
   */
  function Stamp(f: Fields, name: Option<string>, freshHash: string, size: nat, configured: Option<string>): (g: Fields)
    requires Truthy(f.ext) || name.Some?
    requires freshHash != ""
    ensures g.ext == Identify(f, name, freshHash).ext
    ensures g.hash == Identify(f, name, freshHash).hash
    ensures Truthy(name) ==> g.name == name
    ensures !Truthy(name) ==> g.name == Some(g.hash.value + g.ext.value)
    ensures g.size == Some(size)
    ensures g.transport == Some(PinnedTransport(f.transport, configured))
  {
    var id := Identify(f, name, freshHash);
    id.(name := Some(if Truthy(name) then name.value else id.hash.value + id.ext.value),
        size := Some(size),
        transport := Some(PinnedTransport(f.transport, configured)))
  }

  /**
   * Re-ingesting into a record whose `ext` and `hash` are set keeps both,
   * whatever name, fresh value, size or configuration the new call brings.
   */
  lemma IdentityIsKept(f: Fields, name: Option<string>, freshHash: string, size: nat, configured: Option<string>)
    requires Truthy(f.ext) && Truthy(f.hash)
    requires freshHash != ""
    ensures Stamp(f, name, freshHash, size, configured).ext == f.ext
    ensures Stamp(f, name, freshHash, size, configured).hash == f.hash
    ensures Stamp(f, name, freshHash, size, configured).transport.value
         == PinnedTransport(f.transport, configured)
  {
  }

  /**
   * An `ext` that was derived as the empty string is falsy, so the next
   * ingestion derives it again from its own name: an empty extension is not
   * kept the way a non-empty one is.
   */
  lemma EmptyExtIsDerivedAgain(f: Fields, name: string, freshHash: string, size: nat, configured: Option<string>)
    requires f.ext == Some("")
    requires freshHash != ""
    ensures Stamp(f, Some(name), freshHash, size, configured).ext == Some(ExtOf(name))
  {
  }

  /**
   * fromBuffer and fromURL run Identify before staging, and fromFile runs it
   * again inside Stamp: the first pass is absorbed, so the record ends as if
   * fromFile alone had stamped it with the same fresh value.
   */
  lemma {:induction false} IdentifyThenStamp(f: Fields, name: Option<string>, freshHash: string, laterHash: string,
                                             size: nat, configured: Option<string>)
    requires Truthy(f.ext) || name.Some?
    requires freshHash != "" && laterHash != ""
    ensures Truthy(Identify(f, name, freshHash).ext) || name.Some?
    ensures Stamp(Identify(f, name, freshHash), name, laterHash, size, configured)
         == Stamp(f, name, freshHash, size, configured)
  {
    var id := Identify(f, name, freshHash);
    if !Truthy(id.ext) {
      assert !Truthy(f.ext);
    }
    assert Identify(id, name, laterHash) == id;
  }

  /**
   * Stamping twice with the same name and size changes nothing the second
   * time, whatever fresh value or configuration the second call brings.
   */
  lemma {:induction false} StampIsIdempotent(f: Fields, name: Option<string>, freshHash: string, laterHash: string,
                                             size: nat, configured: Option<string>, later: Option<string>)
    requires Truthy(f.ext) || name.Some?
    requires freshHash != "" && laterHash != ""
    ensures Truthy(Stamp(f, name, freshHash, size, configured).ext) || name.Some?
    ensures Stamp(Stamp(f, name, freshHash, size, configured), name, laterHash, size, later)
         == Stamp(f, name, freshHash, size, configured)
  {
    var g := Stamp(f, name, freshHash, size, configured);
    if !Truthy(g.ext) {
      assert !Truthy(f.ext);
    }
    PinnedTransportIsStable(f.transport, configured, later);
  }
}
