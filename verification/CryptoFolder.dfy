/** The state of the crypto folder: whether it is unlocked, its two RSA keys, and the cached keys and codecs. */
module CryptoFolder {
  import opened Bytes
  import opened KeyFiles
  import opened Options
  import opened CacheLists
  import opened CacheTable

  const START_SUCCESS: int := 0
  const START_ALREADY_STARTED: int := 1
  const START_UNKNOWN_KEY_FORMAT: int := 5
  const START_BAD_PASSWORD: int := 6
  const START_KEYS_DONT_MATCH: int := 7
  const STOP_SUCCESS: int := 0
  const STOP_NOT_STARTED: int := 1

  /** The prefixes of the cache keys under which key material is cached. */
  const CLASSES: seq<string> := ["DKEY", "FKEY", "FLDE", "FLDD", "SEEN"]

  /** The first two classes hold keys, the others codecs. */
  const CODECS: nat := 2

  datatype Keys = Keys(priv: bytes, pub: bytes, salt: bytes, iterations: nat)

  /** The four rows of the setting table. */
  datatype Rows = Rows(priv: Option<bytes>, pub: Option<bytes>, salt: Option<bytes>, iterations: Option<nat>)

  function Stored(rows: Rows): Option<Keys> {
    if rows.priv.Some? && rows.pub.Some? && rows.salt.Some? && rows.iterations.Some?
    then Some(Keys(rows.priv.value, rows.pub.value, rows.salt.value, rows.iterations.value))
    else None
  }

  function Saved(keys: Keys): Rows {
    Rows(Some(keys.priv), Some(keys.pub), Some(keys.salt), Some(keys.iterations))
  }

  /** The server's answer: an error, or the two key files. */
  datatype Download = Refused(code: int) | Files(priv: bytes, pub: bytes)

  datatype Outcome<T> = Failed(code: int) | Done(value: T)

  /** What download_keys makes of it. */
  function Downloaded(d: Download): Outcome<Keys> {
    match d
    case Refused(code) => Failed(code)
    case Files(priv, pub) =>
      if !IsPubFile(pub) || !IsPrivFile(priv) then Failed(START_UNKNOWN_KEY_FORMAT)
      else Done(Keys(FileKey(priv), pub[PUB_HEADER..], FileSalt(priv), ITERATIONS))
  }

  /** How keys are loaded and checked; the source leaves this to its RSA library. */
  datatype RsaLibrary = RsaLibrary(
    loadPublic: bytes -> Option<Rsa>, loadPrivate: bytes -> Option<Rsa>, keysMatch: (Rsa, Rsa) -> bool)

  /** The keys that unlocking with a password loads. */
  function Opened(w: Primitives, rsa: RsaLibrary, password: bytes, keys: Keys): Outcome<(Rsa, Rsa)> {
    var pub := rsa.loadPublic(keys.pub);
    if pub.None? then Failed(START_UNKNOWN_KEY_FORMAT) else
      var priv := rsa.loadPrivate(w.Masked(password, keys.salt, keys.iterations, keys.priv));
      if priv.None? then Failed(START_BAD_PASSWORD)
      else if !rsa.keysMatch(pub.value, priv.value) then Failed(START_KEYS_DONT_MATCH)
      else Done((pub.value, priv.value))
  }

  function KeysFor(rows: Rows, d: Download): Outcome<Keys> {
    match Stored(rows)
    case Some(keys) => Done(keys)
    case None => Downloaded(d)
  }

  function Unlocked(w: Primitives, rsa: RsaLibrary, password: bytes, rows: Rows, d: Download): Outcome<(Rsa, Rsa)> {
    match KeysFor(rows, d)
    case Failed(code) => Failed(code)
    case Done(keys) => Opened(w, rsa, password, keys)
  }

  /** What pcryptofolder_setup stores and uploads for a new pair of keys. */
  function SetUp(w: Primitives, password: bytes, salt: bytes, priv: bytes, pub: bytes): Keys {
    Keys(w.Masked(password, salt, ITERATIONS, priv), pub, salt, ITERATIONS)
  }

  /** Unlocking with the password of the setup loads exactly the private key bytes that were set up: from the rows... */
  lemma SetupThenUnlock(w: Primitives, rsa: RsaLibrary, password: bytes, salt: bytes, priv: bytes, pub: bytes, d: Download)
    requires rsa.loadPublic(pub).Some? && rsa.loadPrivate(priv).Some?
    requires rsa.keysMatch(rsa.loadPublic(pub).value, rsa.loadPrivate(priv).value)
    ensures Unlocked(w, rsa, password, Saved(SetUp(w, password, salt, priv, pub)), d)
         == Done((rsa.loadPublic(pub).value, rsa.loadPrivate(priv).value))
  {
    MaskedTwice(w, password, salt, ITERATIONS, priv);
  }

  /** ...and on another device, from the uploaded files. */
  lemma SetupThenDownload(w: Primitives, password: bytes, salt: bytes, priv: bytes, pub: bytes, flags: bytes)
    requires |salt| == SALT_SIZE && |flags| == 4 && priv != [] && pub != []
    ensures var keys := SetUp(w, password, salt, priv, pub);
            Downloaded(Files(PrivFile(flags, salt, keys.priv), PubFile(flags, pub))) == Done(keys)
  {
    hide Primitives.Masked;
    var keys := SetUp(w, password, salt, priv, pub);
    ReadPrivFile(flags, salt, keys.priv);
  }

  /** A file re-encoded for a new passphrase unlocks with it to what the old file unlocked to with the old one. */
  method ReencodeThenUnlock(w: Primitives, rsa: RsaLibrary, loadedMatch: bool, pub: bytes, oldfile: bytes, oldpass: bytes,
                            newpass: bytes, flags: bytes, newsalt: bytes, ghost none: Rows)
    returns (r: Reencoding)
    requires |flags| == 4 && |newsalt| == SALT_SIZE && Stored(none).None?
    ensures r.Reencoded? ==>
              && Unlocked(w, rsa, newpass, none, Files(r.file, pub)) == Unlocked(w, rsa, oldpass, none, Files(oldfile, pub))
              && Unlocked(w, rsa, newpass, none, Files(r.file, pub)) != Failed(START_UNKNOWN_KEY_FORMAT)
              && Unlocked(w, rsa, newpass, none, Files(r.file, pub)) != Failed(START_BAD_PASSWORD)
    ensures r.Reencoded? <==>
              && loadedMatch && Unlocked(w, rsa, oldpass, none, Files(oldfile, pub)) != Failed(START_UNKNOWN_KEY_FORMAT)
              && Unlocked(w, rsa, oldpass, none, Files(oldfile, pub)) != Failed(START_BAD_PASSWORD)
  {
    hide Primitives.Masked;
    r := Reencode(w, rsa.loadPublic, rsa.loadPrivate, loadedMatch, pub, oldfile, oldpass, newpass, flags, newsalt);
  }

  /** A cache key of one of the five classes. */
  function CacheKey(prefix: string, id: string): string {
    prefix + id
  }

  /** Of the entries under any key made from one of the prefixes, locking leaves those whose timers are firing. */
  lemma ClassKey(c: nat, id: string, list: seq<Entry>, running: set<nat>)
    requires c < |CLASSES|
    ensures var key := CacheKey(CLASSES[c], id);
            && Unswept(list, CLASSES, running, key) == Filter(list, Running(running))
            && (running == {} ==> Unswept(list, CLASSES, running, key) == [])
  {
    assert IsPrefix(CLASSES[c], CacheKey(CLASSES[c], id));
    NothingRuns(list);
  }

  lemma OfFiveClasses(key: string)
    ensures Matches(key, CLASSES) <==>
              "DKEY" <= key || "FKEY" <= key || "FLDE" <= key || "FLDD" <= key || "SEEN" <= key
  {
    assert CLASSES[0] == "DKEY" && CLASSES[1] == "FKEY" && CLASSES[2] == "FLDE" && CLASSES[3] == "FLDD"
        && CLASSES[4] == "SEEN";
    StartsIt(key, CLASSES);
  }

  datatype Got = NotStarted | NotEncrypted | Codec(v: Value) | Unavailable

  /** What fetching the key and making a codec from it came to. */
  function Made(made: Option<Value>): Got {
    if made.Some? then Codec(made.value) else Unavailable
  }

  class Folder {
    const w: Primitives
    const rsa: RsaLibrary
    const cache: Table
    var startedL: bool
    var startedUn: bool
    var pubkey: Option<Rsa>
    var privkey: Option<Rsa>
    var rows: Rows
    /** Does a writer hold crypto_lock? */
    var writing: bool
    /** Codecs freed directly, without having been cached. */
    var freed: seq<Value>

    /** The folder is started exactly when both keys are loaded, and otherwise none is; the loaded keys match. */
    ghost predicate KeysOk()
      reads this
    {
      && (startedL <==> pubkey.Some?) && (startedL <==> privkey.Some?)
      && (startedL ==> rsa.keysMatch(pubkey.value, privkey.value))
      && (startedL <==> startedUn)
    }

    ghost predicate NoneCached()
      requires cache.buckets.Length == BUCKETS
      reads this, cache.buckets
    {
      forall key :: Matches(key, CLASSES) ==> cache.Stack(key) == []
    }

    ghost predicate Valid()
      reads this, cache, cache.buckets
    {
      && cache.Valid() && !writing && KeysOk()
      && (!startedL ==> NoneCached())
    }

    constructor (w: Primitives, rsa: RsaLibrary, hash: string -> Hash, rows: Rows)
      ensures Valid() && !startedL && fresh(cache) && fresh(cache.buckets)
      ensures this.w == w && this.rsa == rsa && this.rows == rows
    {
      this.w, this.rsa, this.rows := w, rsa, rows;
      cache := new Table(hash);
      startedL, startedUn, pubkey, privkey := false, false, None, None;
      writing, freed := false, [];
    }

    /** The key loading of pcryptofolder_unlock, under the write lock; every way out that fails unloads what it loaded. */
    method LoadKeys(password: bytes, keys: Keys) returns (r: int)
      requires writing && !startedL && pubkey == privkey == None
      modifies this`pubkey, this`privkey, this`startedL, this`startedUn, this`writing
      ensures !writing
      ensures match Opened(w, rsa, password, keys)
              case Failed(code) => r == code && pubkey == privkey == None && !startedL && startedUn == old(startedUn)
              case Done(pair) => r == START_SUCCESS && pubkey == Some(pair.0) && privkey == Some(pair.1) && startedL && startedUn
      ensures startedL ==> pubkey.Some? && privkey.Some? && rsa.keysMatch(pubkey.value, privkey.value)
      ensures var pub := rsa.loadPublic(keys.pub);
              var priv := rsa.loadPrivate(w.Masked(password, keys.salt, keys.iterations, keys.priv));
              && (r == START_UNKNOWN_KEY_FORMAT <==> pub.None?)
              && (r == START_BAD_PASSWORD <==> pub.Some? && priv.None?)
              && (r == START_KEYS_DONT_MATCH <==> pub.Some? && priv.Some? && !rsa.keysMatch(pub.value, priv.value))
              && (r == START_SUCCESS <==> pub.Some? && priv.Some? && rsa.keysMatch(pub.value, priv.value))
    {
      hide Primitives.Masked;
      pubkey := rsa.loadPublic(keys.pub);
      if pubkey.None? {
        writing := false;
        return START_UNKNOWN_KEY_FORMAT;
      }
      var rsaprivdec := Copied(keys.priv);
      Mask(w, password, keys.salt, keys.iterations, rsaprivdec, 0);
      privkey := rsa.loadPrivate(rsaprivdec[..]);
      if privkey.None? {
        pubkey := None;
        writing := false;
        return START_BAD_PASSWORD;
      }
      if !rsa.keysMatch(pubkey.value, privkey.value) {
        pubkey, privkey := None, None;
        writing := false;
        return START_KEYS_DONT_MATCH;
      }
      startedL, startedUn := true, true;
      writing := false;
      r := START_SUCCESS;
    }

    /** The loop at the start of pcryptofolder_unlock: takes the write lock, and keeps it once the database is free too. */
    method LockBoth(tries: seq<bool>) returns (already: bool)
      requires !writing && true in tries
      modifies this`writing
      ensures already == startedL && writing == !already
    {
      var i := 0;
      while true
        invariant !writing && i <= |tries| && true in tries[i..]
        decreases |tries| - i
      {
        writing := true;
        if startedL {
          writing := false;
          return true;
        }
        if !tries[i] {
          writing := false;
          i := i + 1;
          continue;
        }
        return false;
      }
    }

    /** pcryptofolder_unlock. `tries` says at which attempts the database lock can be had at once; one of them can. */
    method Unlock(password: bytes, tries: seq<bool>, download: Download) returns (r: int)
      requires Valid() && true in tries && (download.Refused? ==> download.code != START_SUCCESS)
      modifies this`pubkey, this`privkey, this`startedL, this`startedUn, this`writing, this`rows
      ensures Valid()
      ensures old(startedL) ==> r == START_ALREADY_STARTED && pubkey == old(pubkey) && privkey == old(privkey) && startedL
      ensures !old(startedL) ==>
                match Unlocked(w, rsa, password, old(rows), download)
                case Failed(code) => r == code && !startedL
                case Done(pair) => r == START_SUCCESS && startedL && pubkey == Some(pair.0) && privkey == Some(pair.1)
      ensures rows == if r == START_SUCCESS then Saved(KeysFor(old(rows), download).value) else old(rows)
      ensures r == START_SUCCESS ==>
                startedL && pubkey.Some? && privkey.Some? && rsa.keysMatch(pubkey.value, privkey.value)
      ensures var s := old(rows);
              !old(startedL) && s.pub.Some? && s.priv.Some? && s.salt.Some? && s.iterations.Some? ==>
                var pub := rsa.loadPublic(s.pub.value);
                var priv := rsa.loadPrivate(w.Masked(password, s.salt.value, s.iterations.value, s.priv.value));
                && (r == START_UNKNOWN_KEY_FORMAT <==> pub.None?)
                && (r == START_BAD_PASSWORD <==> pub.Some? && priv.None?)
                && (r == START_KEYS_DONT_MATCH <==> pub.Some? && priv.Some? && !rsa.keysMatch(pub.value, priv.value))
                && (r == START_SUCCESS <==> pub.Some? && priv.Some? && rsa.keysMatch(pub.value, priv.value))
      ensures var s, d := old(rows), download;
              !old(startedL) && (s.pub.None? || s.priv.None? || s.salt.None? || s.iterations.None?) ==>
                if d.Refused? then r == d.code
                else if |d.pub| <= 8 || |d.priv| <= 72 || d.pub[..4] != [0, 0, 0, 0] || d.priv[..4] != [0, 0, 0, 0] then
                  r == START_UNKNOWN_KEY_FORMAT
                else
                  var pub := rsa.loadPublic(d.pub[8..]);
                  var priv := rsa.loadPrivate(w.Masked(password, d.priv[8..72], 20000, d.priv[72..]));
                  && (r == START_UNKNOWN_KEY_FORMAT <==> pub.None?)
                  && (r == START_BAD_PASSWORD <==> pub.Some? && priv.None?)
                  && (r == START_KEYS_DONT_MATCH <==> pub.Some? && priv.Some? && !rsa.keysMatch(pub.value, priv.value))
                  && (r == START_SUCCESS <==> pub.Some? && priv.Some? && rsa.keysMatch(pub.value, priv.value))
    {
      hide Primitives.Masked;
      if download.Files? {
        FileTypes(download.priv);
        FileTypes(download.pub);
      }
      var already := LockBoth(tries);
      if already {
        return START_ALREADY_STARTED;
      }
      var stored := Stored(rows);
      var keys;
      if stored.None? {
        var got := Downloaded(download);
        if got.Failed? {
          writing := false;
          return got.code;
        }
        keys := got.value;
      } else {
        keys := stored.value;
      }
      r := LoadKeys(password, keys);
      if r == START_SUCCESS && stored.None? {
        rows := Saved(keys);
      }
    }

    /** pcryptofolder_lock. Entries whose timers are just firing are left to their timers. */
    method Lock(running: set<nat>) returns (r: int)
      requires Valid()
      modifies this`pubkey, this`privkey, this`startedL, this`startedUn, this`writing, cache`freed, cache.buckets
      ensures cache.Valid() && !writing && KeysOk() && !startedL
      ensures r == if old(startedL) then STOP_SUCCESS else STOP_NOT_STARTED
      ensures forall key :: cache.Stack(key) == if r == STOP_SUCCESS then Unswept(old(cache.Stack(key)), CLASSES, running, key)
                                                else old(cache.Stack(key))
      ensures r == STOP_SUCCESS ==>
                forall c: nat, id | c < |CLASSES| ::
                  var key := CacheKey(CLASSES[c], id);
                  cache.Stack(key) == Filter(old(cache.Stack(key)), Running(running))
      ensures running == {} ==> Valid()
      ensures forall key ::
                if "DKEY" <= key || "FKEY" <= key || "FLDE" <= key || "FLDD" <= key || "SEEN" <= key then
                  r == STOP_SUCCESS && running == {} ==> cache.Stack(key) == []
                else cache.Stack(key) == old(cache.Stack(key))
    {
      hide Matches, Filter;
      startedUn := false;
      writing := true;
      if !startedL {
        writing := false;
        return STOP_NOT_STARTED;
      }
      startedL := false;
      pubkey, privkey := None, None;
      writing := false;
      cache.CleanOneof(CLASSES, running);
      forall key
        ensures Matches(key, CLASSES) <==>
                  "DKEY" <= key || "FKEY" <= key || "FLDE" <= key || "FLDD" <= key || "SEEN" <= key
      {
        OfFiveClasses(key);
      }
      forall c: nat, id | c < |CLASSES|
        ensures var key := CacheKey(CLASSES[c], id);
                cache.Stack(key) == Filter(old(cache.Stack(key)), Running(running))
      {
        ClassKey(c, id, old(cache.Stack(CacheKey(CLASSES[c], id))), running);
      }
      if running == {} {
        forall key | Matches(key, CLASSES)
          ensures cache.Stack(key) == []
        {
          NothingRuns(old(cache.Stack(key)));
        }
      }
      r := STOP_SUCCESS;
    }

    /** A codec that is given back: cached for its id if the folder is unlocked, and freed otherwise. */
    method Release(c: nat, id: Option<string>, v: Value, entry: nat)
      requires Valid() && CODECS <= c < |CLASSES|
      modifies this`freed, cache`freed, cache.buckets
      ensures Valid()
      ensures startedUn && id.Some? ==>
                var key := CacheKey(CLASSES[c], id.value);
                var full := |old(cache.Stack(key))| >= 2;
                && cache.Stack(key) == (if full then [] else [Entry(entry, key, cache.hash(key), v)]) + old(cache.Stack(key))
                && cache.freed == old(cache.freed) + (if full then [v] else []) && freed == old(freed)
      ensures !(startedUn && id.Some?) ==>
                && freed == old(freed) + [v] && cache.freed == old(cache.freed)
                && forall key :: cache.Stack(key) == old(cache.Stack(key))
    {
      hide Matches, Filter;
      if startedUn && id.Some? {
        cache.Add(CacheKey(CLASSES[c], id.value), v, entry, 2);
      } else {
        freed := freed + [v];
      }
    }

    /**
     * What is given back under the read lock, by a caller that has seen the folder unlocked: a key, or the name encoder.
     * It is cached without another look at the flag.
     */
    method ReleaseLocked(c: nat, id: string, v: Value, entry: nat)
      requires Valid() && startedL && c <= CODECS
      modifies cache`freed, cache.buckets
      ensures Valid()
      ensures var key := CacheKey(CLASSES[c], id);
              var full := |old(cache.Stack(key))| >= 2;
              && cache.Stack(key) == (if full then [] else [Entry(entry, key, cache.hash(key), v)]) + old(cache.Stack(key))
              && cache.freed == old(cache.freed) + if full then [v] else []
      ensures forall key :: key != CacheKey(CLASSES[c], id) ==> cache.Stack(key) == old(cache.Stack(key))
    {
      hide Matches, Filter;
      cache.Add(CacheKey(CLASSES[c], id), v, entry, 2);
    }

    /** Getting a codec: a cached one, or a new one made under the read lock. A folder that is locked gives out none. */
    method GetCodec(c: nat, id: int, name: string, running: set<nat>, made: Option<Value>) returns (r: Got)
      requires Valid() && c < |CLASSES|
      modifies cache.buckets
      ensures Valid()
      ensures r == NotStarted <==> !startedL
      ensures startedL && id >= 0 ==>
                var key := CacheKey(CLASSES[c], name);
                var hit := TakeFree(old(cache.Stack(key)), running);
                && cache.Stack(key) == hit.1 && (forall k :: k != key ==> cache.Stack(k) == old(cache.Stack(k)))
                && r == match hit.0
                        case Some(v) => Codec(v)
                        case None => if id == 0 then NotEncrypted else Made(made)
      ensures startedL && id < 0 ==> r == Made(made)
      ensures !startedL || id < 0 ==> forall k :: cache.Stack(k) == old(cache.Stack(k))
    {
      hide Matches, Filter, TakeFree;
      if !startedUn {
        return NotStarted;
      }
      if id >= 0 {
        var v := cache.Get(CacheKey(CLASSES[c], name), running);
        if v.Some? {
          return Codec(v.value);
        }
      }
      if !startedL {
        return NotStarted;
      }
      if id == 0 {
        return NotEncrypted;
      }
      r := Made(made);
    }
  }

  lemma {:induction false} NothingRuns(s: seq<Entry>)
    ensures Filter(s, Running({})) == []
  {
    if s == [] {
    } else {
      NothingRuns(s[1..]);
    }
  }
}
