/** The bookkeeping of `StaticSiteFile` (`hefoki-backend/src/logic/static-site-file.js`),
    the base class of the build's and the bucket's files: the key split into
    directory and file name, the locator and its prefix, and the content with
    its cached hash. The hash function is a parameter (MD5 in the program). */
module StaticSite {
  import opened Js

  // ---------------------------------------------------------------------
  // The key split

  /** The split as written: the file name starts one character after the
      last separator (`key.lastIndexOf(sep) + 1`), whatever the separator's
      length. (`slice` clamps an index past the end, which only an empty
      separator reaches.) */
  function SplitKey(key: string, sep: string): (string, string) {
    var i := LastIndexOf(key, sep) + 1;
    if i <= |key| then (key[..i], key[i..]) else (key, "")
  }

  /** The split as the comment above it describes: the directory runs to the
      end of the last separator. */
  function SplitKeyCorrected(key: string, sep: string): (string, string) {
    var j := LastIndexOf(key, sep);
    if j < 0 then ("", key) else (key[..j + |sep|], key[j + |sep|..])
  }

  /** The directory and the file name always rejoin into the key. */
  lemma SplitKeyRejoins(key: string, sep: string)
    ensures SplitKey(key, sep).0 + SplitKey(key, sep).1 == key
  {
    var i := LastIndexOf(key, sep) + 1;
    if i <= |key| {
      assert key[..i] + key[i..] == key;
    }
  }

  /** With a one-character separator (the default `/`), the directory is empty
      or ends with the separator, and the file name holds no separator. */
  lemma SplitKeyOneCharSeparator(key: string, sep: string)
    requires |sep| == 1
    ensures var (dir, name) := SplitKey(key, sep);
      && (dir == "" || EndsWith(dir, sep))
      && forall j :: !OccursAt(name, sep, j)
  {
    var (dir, name) := SplitKey(key, sep);
    var i := LastIndexOf(key, sep) + 1;
    assert dir == key[..i] && name == key[i..];
    if i > 0 {
      assert OccursAt(key, sep, i - 1);
      assert dir[|dir| - 1..] == key[i - 1..i];
    }
    forall j | OccursAt(name, sep, j)
      ensures false
    {
      assert name[j..j + 1] == key[i + j..i + j + 1];
      assert OccursAt(key, sep, i + j);
    }
  }

  /** With a two-character separator the file name keeps the separator's
      second character and the directory does not end with the separator. */
  lemma SplitKeyLongSeparator()
    ensures SplitKey("a::b", "::") == ("a:", ":b")
  {
    var key, sep := "a::b", "::";
    assert key[1..3] == sep;
    assert OccursAt(key, sep, 1);
    assert key[2..4][1] == 'b';
    assert !OccursAt(key, sep, 2);
    assert LastIndexOf(key, sep) == 1;
    assert key[..2] == "a:" && key[2..] == ":b";
  }

  /** The corrected split: the pieces rejoin, the directory is empty or ends
      with the separator, and the file name holds no separator, for every
      non-empty separator. */
  lemma SplitKeyCorrectedSound(key: string, sep: string)
    requires sep != ""
    ensures var (dir, name) := SplitKeyCorrected(key, sep);
      && dir + name == key
      && (dir == "" || EndsWith(dir, sep))
      && forall j :: !OccursAt(name, sep, j)
  {
    var (dir, name) := SplitKeyCorrected(key, sep);
    var last := LastIndexOf(key, sep);
    var i := if last < 0 then 0 else last + |sep|;
    assert i <= |key|;
    assert dir == key[..i] && name == key[i..];
    assert dir + name == key;
    if last >= 0 {
      assert dir[|dir| - |sep|..] == key[last..last + |sep|];
    }
    forall j | OccursAt(name, sep, j)
      ensures false
    {
      assert name[j..j + |sep|] == key[i + j..i + j + |sep|];
      assert OccursAt(key, sep, i + j);
    }
  }

  // ---------------------------------------------------------------------
  // The locator prefix

  /** `locator_prefix`: a truthy explicit prefix wins; otherwise, when the
      locator ends with the key, the locator with the key cut off
      (`locator.slice(0, -key.length)`, which for an empty key is
      `slice(0, 0)`, the empty string); otherwise null. */
  function LocatorPrefix(locator: string, key: string, explicit: Option<string>): Option<string> {
    if TruthyString(explicit) then explicit
    else if EndsWith(locator, key) then Some(if key == "" then "" else locator[..|locator| - |key|])
    else None
  }

  /** A derived prefix followed by a non-empty key gives back the locator. */
  lemma LocatorPrefixRejoins(locator: string, key: string, explicit: Option<string>)
    requires !TruthyString(explicit) && key != ""
    ensures LocatorPrefix(locator, key, explicit).Some? <==> EndsWith(locator, key)
    ensures LocatorPrefix(locator, key, explicit).Some? ==> LocatorPrefix(locator, key, explicit).value + key == locator
  {
    if EndsWith(locator, key) {
      assert locator[..|locator| - |key|] + locator[|locator| - |key|..] == locator;
    }
  }

  // ---------------------------------------------------------------------
  // The file

  /** The constructor's `object` argument. `key` and `locator` are kept as
      JavaScript values because the constructor checks their types;
      `resourceKey` is `None` when it is not a string. */
  datatype FileOptions = FileOptions(
    key: JsValue,
    resourceKey: Option<string>,
    keySeparator: Option<string>,
    locator: JsValue,
    locatorSeparator: Option<string>,
    locatorPrefix: Option<string>,
    content: Option<string>,
    hash: Option<string>)

  /** Why the constructor throws, if it does, checked in the code's order:
      a key that is not a string, an empty key with no string fallback
      (`undefined.lastIndexOf`), then a locator neither nullish nor a string. */
  function ConstructorError(o: FileOptions): Option<JsError> {
    if !o.key.Str? then Some(TypeError("key isn't a string"))
    else if o.key.s == "" && o.resourceKey.None? then Some(TypeError("Cannot read properties of undefined (reading 'lastIndexOf')"))
    else if !Nullish(o.locator) && !o.locator.Str? then Some(TypeError("locator is not a string or null"))
    else None
  }

  /** `object.key || object.resource_key` */
  function EffectiveKey(o: FileOptions): string
    requires ConstructorError(o).None?
  {
    if o.key.s != "" then o.key.s else o.resourceKey.value
  }

  class StaticSiteFile {
    var key: string
    var keySeparator: string
    var keyDirectory: string
    var keyFilename: string
    var locator: Option<string>
    var locatorSeparator: Option<string>
    var locatorPrefix: Option<string>
    var content: Option<string>
    var hash: Option<string>
    var modified: bool

    /** The constructor, once the arguments have passed its checks: the key
        is `key || resource_key`, split at its last separator (`/` unless
        given); a string locator comes with its separator and its prefix, a
        nullish one leaves all three null. */
    constructor(o: FileOptions)
      requires ConstructorError(o).None?
      ensures key == EffectiveKey(o)
      ensures keySeparator == (if o.keySeparator.Some? then o.keySeparator.value else "/")
      ensures (keyDirectory, keyFilename) == SplitKey(key, keySeparator)
      ensures Nullish(o.locator) ==> locator.None? && locatorSeparator.None? && locatorPrefix.None?
      ensures o.locator.Str? ==>
        && locator == Some(o.locator.s)
        && locatorSeparator == Some(if o.locatorSeparator.Some? then o.locatorSeparator.value else "/")
        && locatorPrefix == LocatorPrefix(o.locator.s, key, o.locatorPrefix)
      ensures content == o.content && hash == o.hash && !modified
    {
      var k := EffectiveKey(o);
      var sep := if o.keySeparator.Some? then o.keySeparator.value else "/";
      var split := SplitKey(k, sep);
      key, keySeparator := k, sep;
      keyDirectory, keyFilename := split.0, split.1;
      if o.locator.Str? {
        locator := Some(o.locator.s);
        locatorSeparator := Some(if o.locatorSeparator.Some? then o.locatorSeparator.value else "/");
        locatorPrefix := LocatorPrefix(o.locator.s, k, o.locatorPrefix);
      } else {
        locator, locatorSeparator, locatorPrefix := None, None, None;
      }
      content, hash, modified := o.content, o.hash, false;
    }

    /** `content()` (and `read()`). */
    method Content() returns (c: Option<string>)
      ensures c == content
    {
      c := content;
    }

    /** `setContent(c)`: new content, no hash, not modified. */
    method SetContent(c: Option<string>)
      modifies this
      ensures content == c && hash.None? && !modified
      ensures key == old(key) && keySeparator == old(keySeparator)
      ensures keyDirectory == old(keyDirectory) && keyFilename == old(keyFilename)
      ensures locator == old(locator) && locatorSeparator == old(locatorSeparator)
      ensures locatorPrefix == old(locatorPrefix)
    {
      content := c;
      hash := None;
      modified := false;
    }

    /** `write(c)`: store `c`, or keep the content when `c` is null, and
        return what is stored. The hash is dropped either way. */
    method Write(c: Option<string>) returns (stored: Option<string>)
      modifies this
      ensures content == (if c.Some? then c else old(content))
      ensures stored == content && hash.None? && !modified
      ensures key == old(key) && keySeparator == old(keySeparator)
      ensures keyDirectory == old(keyDirectory) && keyFilename == old(keyFilename)
      ensures locator == old(locator) && locatorSeparator == old(locatorSeparator)
      ensures locatorPrefix == old(locatorPrefix)
    {
      SetContent(if c.Some? then c else content);
      modified := false;
      stored := content;
    }

    /** `hash()`: a truthy cached hash is returned as it is; otherwise the
        digest of the content is computed and cached. Hashing null content
        throws. */
    method Hash(digest: string -> string) returns (r: Result<string>)
      modifies this
      ensures TruthyString(old(hash)) ==> r == Ok(old(hash).value) && hash == old(hash)
      ensures !TruthyString(old(hash)) && content.None? ==> r.Err? && hash == old(hash)
      ensures !TruthyString(old(hash)) && content.Some? ==> r == Ok(digest(content.value)) && hash == Some(r.value)
      ensures content == old(content) && modified == old(modified)
      ensures key == old(key) && keySeparator == old(keySeparator)
      ensures keyDirectory == old(keyDirectory) && keyFilename == old(keyFilename)
      ensures locator == old(locator) && locatorSeparator == old(locatorSeparator)
      ensures locatorPrefix == old(locatorPrefix)
    {
      if TruthyString(hash) {
        return Ok(hash.value);
      }
      if content.None? {
        return Err(TypeError("The \"data\" argument must be of type string or an instance of Buffer"));
      }
      hash := Some(digest(content.value));
      return Ok(hash.value);
    }
  }

  /** `new StaticSiteFile(o)`: throws as `ConstructorError` says, otherwise
      builds the file, whose directory and file name rejoin into its key. */
  method NewStaticSiteFile(o: FileOptions) returns (r: Result<StaticSiteFile>)
    ensures r.Err? <==> ConstructorError(o).Some?
    ensures r.Err? ==> r.error == ConstructorError(o).value
    ensures r.Ok? ==> fresh(r.value) && r.value.key == EffectiveKey(o)
    ensures r.Ok? ==> r.value.keyDirectory + r.value.keyFilename == r.value.key
  {
    var err := ConstructorError(o);
    if err.Some? {
      return Err(err.value);
    }
    var f := new StaticSiteFile(o);
    SplitKeyRejoins(f.key, f.keySeparator);
    return Ok(f);
  }

  /** Hashing twice computes the digest once: the second call returns the
      cached value and changes nothing (MD5's hex digest is never empty). */
  method HashTwice(f: StaticSiteFile, digest: string -> string) returns (first: Result<string>, second: Result<string>)
    requires f.content.Some? && !TruthyString(f.hash)
    requires digest(f.content.value) != ""
    modifies f
    ensures first == second == Ok(digest(old(f.content).value))
  {
    first := f.Hash(digest);
    second := f.Hash(digest);
  }

  /** After new content, the next hash is the digest of that content, not a
      stale cached one. */
  method SetThenHash(f: StaticSiteFile, c: string, digest: string -> string) returns (h: Result<string>)
    modifies f
    ensures h == Ok(digest(c))
  {
    f.SetContent(Some(c));
    h := f.Hash(digest);
  }
}
