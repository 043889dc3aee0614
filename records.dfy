/**
 * The record constructors of ignite.py: `unit`, `dropin` and `_file`
 * (ignite.py:14-56), which build the entries of a Container Linux
 * provisioning document. Each dictionary becomes a datatype; a key the source
 * adds only sometimes is an `Option` field, `None` when the key is absent.
 */
module Records {

  import opened Wrappers
  import Text
  import Services

  /** A systemd drop-in: `{name, contents}`. */
  datatype Dropin = Dropin(name: string, contents: string)

  /** A systemd unit: `{name, enable, contents?, dropins?}`. */
  datatype Unit = Unit(name: string, enable: bool, contents: Option<string>, dropins: Option<seq<Dropin>>)

  /** What a file's `inline` contents hold: plain text, or the JSON text
      `json.dumps` gives for a list of service records (the encoding itself is
      not modelled, only the records it encodes). */
  datatype Inline = Data(text: string) | Manifest(services: seq<Services.Service>)

  datatype Contents = Contents(inline: Inline)

  /** A file to write: `{filesystem, path, contents: {inline}, mode}`. */
  datatype File = File(filesystem: string, path: string, contents: Contents, mode: int)

  /** `unit(name, contents=..., enabled=..., dropins=...)`. Absent contents are
      the empty text, which the source treats like `None` (both are falsy). */
  function MakeUnit(name: string, contents: string := "", enabled: bool := true, dropins: seq<Dropin> := []): (u: Unit)
    ensures u.name == name && u.enable == enabled
    ensures u.contents.Some? <==> contents != ""
    ensures u.contents.Some? ==> u.contents.value == Text.Cleanup(contents) && Text.IsClean(u.contents.value)
    ensures u.dropins.Some? <==> dropins != []
    ensures u.dropins.Some? ==> u.dropins.value == dropins
  {
    Text.CleanupIsClean(contents);
    Unit(
      name,
      enabled,
      if contents != "" then Some(Text.Cleanup(contents)) else None,
      if dropins != [] then Some(dropins) else None)
  }

  /** `dropin(name, contents=...)`: the contents always go through the normaliser. */
  function MakeDropin(name: string, contents: string): (d: Dropin)
    ensures d.name == name
    ensures d.contents == Text.Cleanup(contents) && Text.IsClean(d.contents)
  {
    Text.CleanupIsClean(contents);
    Dropin(name, Text.Cleanup(contents))
  }

  /** `_file(path, contents=..., mode=...)`. The mode is the decimal integer the
      source writes (644 by default), not an octal permission value. */
  function MakeFile(path: string, contents: Inline := Data(""), mode: int := 644): (f: File)
    ensures f.filesystem == "root" && f.path == path
    ensures f.contents.inline == contents && f.mode == mode
  {
    File("root", path, Contents(contents), mode)
  }

  /** The defaults of `_file`: empty inline text and mode 644. */
  lemma FileDefaults(path: string)
    ensures MakeFile(path) == File("root", path, Contents(Data("")), 644)
  {
  }

  /** Units without contents or drop-ins carry only `name` and `enable`. */
  lemma BareUnit(name: string, enabled: bool)
    ensures MakeUnit(name, enabled := enabled) == Unit(name, enabled, None, None)
  {
  }

  /** Unit contents are normalised exactly once: passing already normalised
      text gives the same unit. */
  lemma UnitContentsStable(name: string, contents: string, enabled: bool, dropins: seq<Dropin>)
    requires contents != ""
    ensures var u := MakeUnit(name, contents, enabled, dropins);
            Text.Cleanup(contents) != "" ==> MakeUnit(name, u.contents.value, enabled, dropins) == u
  {
    Text.CleanupIdempotent(contents);
  }
}
