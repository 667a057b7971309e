/**
 * The Talos extension listing (pkg/extensions/extensions.go). The
 * directory listing and file reads are inputs; YAML decoding of an
 * extension's configuration is an oracle that yields its entry point.
 */
module Extensions {
  import opened Wrappers
  import opened Errors
  import opened Hex
  import opened Text
  import Utils

  const ExtensionsDir := "/usr/local/etc/containers"
  const ConfigSuffix := ".yaml"

  /** os.DirEntry: a name, and whether it is a directory. */
  datatype DirEntry = DirEntry(name: string, isDir: bool)

  datatype File = File(name: string, hash: string)
  datatype Extension = Extension(name: string, config: File, binary: File)

  /** ExtensionConfig: the entry point of the extension's container. */
  datatype ExtensionConfig = ExtensionConfig(entrypoint: string)

  type Unmarshal = string -> Result<ExtensionConfig, Error>

  /** fileHash: the SHA-256 digest of the data in lower-case hex. */
  function FileHash(data: string): (h: string)
    ensures |h| == 64 && IsLowerHex(h)
    ensures DecodeString(h) == Some(Utils.Sha256(data))
  {
    DecodeEncode(Utils.Sha256(data));
    EncodeToString(Utils.Sha256(data))
  }

  function ConfigPath(file: DirEntry): string
  {
    ExtensionsDir + "/" + file.name
  }

  /**
   * parseExtension: read the configuration file, decode it, read the
   * binary its entry point names; the extension is named after the file
   * without ".yaml" and records both files with their hashes.
   */
  function ParseExtension(file: DirEntry, read: Utils.ReadFile, unmarshal: Unmarshal): (r: Result<Extension, Error>)
    ensures read(ConfigPath(file)).Err? ==>
      r == Err(Wrapped("failed to read extension file " + ConfigPath(file), read(ConfigPath(file)).error))
    ensures read(ConfigPath(file)).Ok? && unmarshal(read(ConfigPath(file)).value).Err? ==>
      r == Err(Wrapped("failed to unmarshal extension config " + ConfigPath(file),
                       unmarshal(read(ConfigPath(file)).value).error))
    ensures read(ConfigPath(file)).Ok? && unmarshal(read(ConfigPath(file)).value).Ok? ==>
      var entrypoint := unmarshal(read(ConfigPath(file)).value).value.entrypoint;
      read(entrypoint).Err? ==> r == Err(Wrapped("failed to read extension binary " + entrypoint, read(entrypoint).error))
  {
    var path := ConfigPath(file);
    var data := read(path);
    if data.Err? then Err(Wrapped("failed to read extension file " + path, data.error))
    else
      var extConfig := unmarshal(data.value);
      if extConfig.Err? then Err(Wrapped("failed to unmarshal extension config " + path, extConfig.error))
      else
        var entrypoint := extConfig.value.entrypoint;
        var binary := read(entrypoint);
        if binary.Err? then Err(Wrapped("failed to read extension binary " + entrypoint, binary.error))
        else
          Ok(Extension(
            TrimSuffix(file.name, ConfigSuffix),
            File(file.name, FileHash(data.value)),
            File(entrypoint, FileHash(binary.value))))
  }

  /**
   * A parsed extension is named after its file without ".yaml", records the
   * file name with the hash of its contents, and records the entry point
   * with the hash of the binary it names.
   */
  lemma ParsedExtension(file: DirEntry, read: Utils.ReadFile, unmarshal: Unmarshal)
    requires ParseExtension(file, read, unmarshal).Ok?
    ensures read(ConfigPath(file)).Ok? && unmarshal(read(ConfigPath(file)).value).Ok?
    ensures var x := ParseExtension(file, read, unmarshal).value;
      var data := read(ConfigPath(file)).value;
      var entrypoint := unmarshal(data).value.entrypoint;
      && read(entrypoint).Ok?
      && (HasSuffix(file.name, ConfigSuffix) ==> x.name + ConfigSuffix == file.name)
      && x.config == File(file.name, FileHash(data))
      && x.binary == File(entrypoint, FileHash(read(entrypoint).value))
  {
  }

  /** The entries GetExtensions processes: files, not directories, whose name ends in ".yaml". */
  predicate Selected(file: DirEntry) {
    !file.isDir && HasSuffix(file.name, ConfigSuffix)
  }

  /** What parsing one entry gives. */
  type Parse = DirEntry -> Result<Extension, Error>

  /** parseExtension over the given file system. */
  function Parser(read: Utils.ReadFile, unmarshal: Unmarshal): Parse
  {
    file => ParseExtension(file, read, unmarshal)
  }

  /** The error GetExtensions reports for an entry whose parse fails. */
  function ParseFailure(file: DirEntry, parse: Parse): Error
    requires parse(file).Err?
  {
    Wrapped("failed to parse extension " + file.name, parse(file).error)
  }

  /**
   * The listing the entries give, processed in order: unselected entries
   * are skipped, each selected entry adds its extension at the end, and the
   * first selected entry that fails to parse makes the whole listing fail.
   */
  function ExtensionsOf(files: seq<DirEntry>, parse: Parse): Result<seq<Extension>, Error>
  {
    if files == [] then Ok([])
    else
      var last := files[|files| - 1];
      var before := ExtensionsOf(files[..|files| - 1], parse);
      if before.Err? || !Selected(last) then before
      else if parse(last).Err? then Err(ParseFailure(last, parse))
      else Ok(before.value + [parse(last).value])
  }

  /** GetExtensions: list the directory, then process its entries in order. */
  method GetExtensions(dir: Result<seq<DirEntry>, Error>, read: Utils.ReadFile, unmarshal: Unmarshal)
    returns (r: Result<seq<Extension>, Error>)
    ensures dir.Err? ==> r == Err(Wrapped("failed to read extensions directory", dir.error))
    ensures dir.Ok? ==> r == ExtensionsOf(dir.value, Parser(read, unmarshal))
  {
    if dir.Err? {
      return Err(Wrapped("failed to read extensions directory", dir.error));
    }
    r := CollectExtensions(dir.value, Parser(read, unmarshal));
  }

  /**
   * The loop of GetExtensions: unselected entries are skipped, each parsed
   * extension is appended, and the first parse failure returns at once.
   */
  method CollectExtensions(files: seq<DirEntry>, parse: Parse) returns (r: Result<seq<Extension>, Error>)
    ensures r == ExtensionsOf(files, parse)
  {
    var extensions: seq<Extension> := [];
    for i := 0 to |files|
      invariant ExtensionsOf(files[..i], parse) == Ok(extensions)
    {
      var file := files[i];
      assert files[..i + 1][..i] == files[..i];
      if file.isDir || !HasSuffix(file.name, ConfigSuffix) {
        continue;
      }
      var extension := parse(file);
      if extension.Err? {
        FailureStays(files, i + 1, parse);
        return Err(Wrapped("failed to parse extension " + file.name, extension.error));
      }
      extensions := extensions + [extension.value];
    }
    assert files[..|files|] == files;
    return Ok(extensions);
  }

  /** Once a prefix of the entries fails, the whole listing fails the same way. */
  lemma {:induction false} FailureStays(files: seq<DirEntry>, n: nat, parse: Parse)
    requires n <= |files|
    requires ExtensionsOf(files[..n], parse).Err?
    ensures ExtensionsOf(files, parse) == ExtensionsOf(files[..n], parse)
    decreases |files| - n
  {
    if n < |files| {
      assert files[..n + 1][..n] == files[..n];
      FailureStays(files, n + 1, parse);
    } else {
      assert files[..n] == files;
    }
  }

  /** An entry that is selected and fails to parse. */
  predicate Fails(file: DirEntry, parse: Parse) {
    Selected(file) && parse(file).Err?
  }

  /** The index of the first failing entry, or |files| when none fails. */
  function FirstFailing(files: seq<DirEntry>, parse: Parse): (k: nat)
    ensures k <= |files|
    ensures forall j :: 0 <= j < k ==> !Fails(files[j], parse)
    ensures k < |files| ==> Fails(files[k], parse)
  {
    if files == [] || Fails(files[0], parse) then 0 else 1 + FirstFailing(files[1..], parse)
  }

  lemma {:induction false} FirstFailingAt(files: seq<DirEntry>, parse: Parse, k: nat)
    requires k <= |files|
    requires forall j :: 0 <= j < k ==> !Fails(files[j], parse)
    requires k < |files| ==> Fails(files[k], parse)
    ensures FirstFailing(files, parse) == k
  {
    if k > 0 {
      FirstFailingAt(files[1..], parse, k - 1);
    }
  }

  /** The selected entries, in listing order. */
  function SelectedFiles(files: seq<DirEntry>): (r: seq<DirEntry>)
    ensures forall j :: 0 <= j < |r| ==> Selected(r[j]) && r[j] in files
  {
    if files == [] then []
    else
      var init := SelectedFiles(files[..|files| - 1]);
      var last := files[|files| - 1];
      if Selected(last) then init + [last] else init
  }

  /**
   * When no selected entry fails to parse, the listing succeeds with one
   * extension per selected entry, in listing order.
   */
  lemma {:induction false} ExtensionsSuccess(files: seq<DirEntry>, parse: Parse)
    requires forall j :: 0 <= j < |files| ==> !Fails(files[j], parse)
    ensures ExtensionsOf(files, parse).Ok?
    ensures |ExtensionsOf(files, parse).value| == |SelectedFiles(files)|
    ensures forall j :: 0 <= j < |SelectedFiles(files)| ==>
      parse(SelectedFiles(files)[j]) == Ok(ExtensionsOf(files, parse).value[j])
  {
    if files != [] {
      var n := |files| - 1;
      var init := files[..n];
      assert forall j :: 0 <= j < n ==> init[j] == files[j];
      ExtensionsSuccess(init, parse);
    }
  }

  /**
   * When some selected entry fails to parse, the listing fails with the
   * error of the first such entry.
   */
  lemma {:induction false} ExtensionsFailure(files: seq<DirEntry>, parse: Parse)
    requires FirstFailing(files, parse) < |files|
    ensures ExtensionsOf(files, parse) == Err(ParseFailure(files[FirstFailing(files, parse)], parse))
  {
    var k := FirstFailing(files, parse);
    var n := |files| - 1;
    var init := files[..n];
    assert forall j :: 0 <= j < n ==> init[j] == files[j];
    if k < n {
      FirstFailingAt(init, parse, k);
      ExtensionsFailure(init, parse);
    } else {
      ExtensionsSuccess(init, parse);
    }
  }
}
