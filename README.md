# ignite.py, modelled in Dafny

`ignite.py` turns a deployment description into a Container Linux provisioning
document. The description is a YAML file listing Docker services and,
optionally, an orchestrator. The document holds two systemd units and two files:

- `docker.service` gets a drop-in that runs `docker swarm init`.
- `hive.service` runs `/opt/hive/bin/hive <orchestrator>`.
- `/opt/hive/etc/services.json` holds the resolved service records, with mode 600.
- `/opt/hive/bin/hive` holds the orchestration script, with mode 700.

Each service entry is checked and given its defaults by `load_service`:

- The name must start with `[a-z0-9-]`.
- Ports are converted with `int()` and their protocol defaults to `tcp`.
- Bind mounts default to `read_only: False`.
- The environment defaults to `{}` and `is_enabled` to `True`.
- `command` is kept only when it is truthy.

Multi-line unit texts are normalised by `cleanup_contents`, which is
`textwrap.dedent` followed by `str.strip`.

The model has these modules:

- `Wrappers` (wrappers.dfy): `Option`, `Result`, and `MapAll`. `MapAll` is an
  in-order map that stops at the first failure, the way a comprehension or an
  appending loop stops at the first exception.
- `Text` (text.dfy): `split`/`join` on line breaks, `strip`, the margin
  computation of `textwrap.dedent`, `cleanup_contents`, and indented
  triple-quoted literals (`IndentedBlock`). Proved: the normaliser is
  idempotent; its fixed points are exactly the "clean" texts; and it turns an
  indented literal back into the literal's lines.
- `Values` (values.dfy): values produced by the YAML loader, Python
  truthiness, and `int()` on those values, including the 4300-digit limit on
  decimal literals. Proved: `int(str(n)) == n` for every `n` within that limit.
- `Services` (services.dfy): `load_service`. It is a specification function,
  `ResolveService`, that states the order in which the checks fail and what
  the record holds, plus the method `LoadService`. The method keeps the
  source's two appending loops and is proved equal to the function.
- `Records` (records.dfy): `unit`, `dropin` and `_file`.
- `Ignition` (ignition.dfy): the module-level code of ignite.py:100-142,
  lifted into the function `Assemble`. Its parameters are the loaded
  configuration and the script text. It returns the document, or the first
  error raised while resolving a service.

Some things `ignite.py` does not do, and neither does the model:

- A service entry has no `tag` and no `replicas` field.
- The name check matches a prefix of the name, not the whole name
  (`Services.PrefixMatchAcceptsTrailingJunk`).
- Port numbers are not range-checked.
- The file modes are the decimal integers 644, 600 and 700, as the source
  writes them. They are not octal permission bits.

## Model

| member | source | states |
|---|---|---|
| Wrappers.MapAll | ignite.py:63-69 | The map succeeds iff every element does. It then has the input's length and its i-th output is the element's result. Otherwise its error is that of the first failing element. |
| Text.Split | ignite.py:11 | Splitting on line breaks gives at least one line, and no line contains a line break. |
| Text.JoinSplit | ignite.py:11 | Joining the lines of a text gives the text back. |
| Text.SplitJoin | ignite.py:11 | Splitting the join of a non-empty list of lines without line breaks gives those lines back. |
| Text.SplitConcat | ignite.py:11 | The lines of `a + b`: the lines of `a`, with the last one joined to the first line of `b`, then the rest of `b`. |
| Text.TrimStart | ignite.py:11 | `lstrip` removes a whitespace-only prefix and leaves a text that is empty or starts with non-whitespace. |
| Text.TrimEnd | ignite.py:11 | `rstrip` removes a whitespace-only suffix and leaves a text that is empty or ends with non-whitespace. |
| Text.Strip | ignite.py:11 | `strip` gives a trimmed text: a slice of the input with only whitespace cut from either end. |
| Text.StripTrimmed | ignite.py:11 | `strip` leaves a trimmed text unchanged. |
| Text.StripFramed | ignite.py:11 | A trimmed non-empty text between two line breaks strips to itself. |
| Text.Indent | ignite.py:11 | A line's indentation is its longest prefix of spaces and tabs. |
| Text.Narrow | ignite.py:11 | One step of dedent's margin loop gives the longest common prefix of the margin so far and the new indentation. |
| Text.FoldMargin | ignite.py:11 | The margin loop gives no margin iff every line is blank. Otherwise the result is shared by every non-blank line's indentation and is the longest such prefix. |
| Text.Margin | ignite.py:11 | Dedent's margin is blank, is a prefix of every non-blank line, and is the longest such. |
| Text.DedentLines | ignite.py:11 | Dedenting keeps the number of lines. |
| Text.DedentLinesHaveNoNewline | ignite.py:11 | Dedenting never brings a line break into a line. |
| Text.Dedent | ignite.py:11 | The lines of `textwrap.dedent(s)` are the lines of `s`, each dedented against the common margin: blank lines become empty, and the others lose the margin. |
| Text.Cleanup | ignite.py:10-11 | `cleanup_contents` returns a text with no leading or trailing whitespace. |
| Text.DedentHasNoIndentOnlyLines | ignite.py:11 | After dedent, every line is empty or holds something other than spaces and tabs. |
| Text.StripKeepsNoIndentOnlyLines | ignite.py:11 | Stripping the dedented text keeps that property. |
| Text.CleanupIsClean | ignite.py:10-11 | The output of `cleanup_contents` is clean: trimmed, and no line consists of spaces and tabs alone. |
| Text.CleanupKeepsClean | ignite.py:10-11 | `cleanup_contents` leaves clean text unchanged. |
| Text.CleanupIdempotent | ignite.py:10-11 | Applying `cleanup_contents` twice gives the same text as applying it once. |
| Text.CleanupFixedPoints | ignite.py:10-11 | A text is a fixed point of `cleanup_contents` iff it is clean. |
| Text.SplitAllSpace | ignite.py:11 | Every line of a whitespace-only text is whitespace only. |
| Text.DedentLinesAllSpace | ignite.py:11 | Dedenting whitespace-only lines leaves whitespace-only lines. |
| Text.JoinAllSpace | ignite.py:11 | Joining whitespace-only lines with line breaks gives a whitespace-only text. |
| Text.StripAllSpace | ignite.py:11 | `strip` turns a whitespace-only text into the empty string. |
| Text.CleanupAllSpace | ignite.py:10-11 | `cleanup_contents` turns the empty text, and any text of whitespace alone, into the empty string. |
| Text.BlockSplit | ignite.py:104-117 | An indented literal's lines are: an empty line, the body lines with the margin added to non-empty ones, then the closing margin. |
| Text.BlockSharedIndent | ignite.py:104-117 | Every line of such a literal that holds text starts with the literal's indentation. |
| Text.BlockMargin | ignite.py:104-117 | Dedent's margin for such a literal is the literal's indentation. |
| Text.BlockDedent | ignite.py:104-117 | Dedenting such a literal gives the body between two empty lines. |
| Text.BlockDedentLine | ignite.py:104-117 | Each line of such a literal, dedented by the literal's indentation, is the matching line of the body framed by two empty lines. |
| Text.DedentBlockLine | ignite.py:104-117 | Dedenting an indented body line that holds text gives that body line back. |
| Text.CleanupIndentedBlock | ignite.py:104-125 | `cleanup_contents` turns a well-formed indented literal into its body lines joined by line breaks. |
| Values.Truthy | ignite.py:85-89 | `bool(v)` is false exactly for None, False, 0, the empty string, the empty list and the empty mapping. |
| Values.SkipIntSpace | ignite.py:66-67 | Removes exactly the leading run of the whitespace `int()` skips. |
| Values.DropIntSpace | ignite.py:66-67 | Removes exactly the trailing run of that whitespace. |
| Values.ParseInt | ignite.py:66-67 | `int()` on a string fails only with a literal error or a digit-limit error, each naming that string. The digit-limit error needs more than 4300 digits, and a success has at most 4300. |
| Values.DigitCount | ignite.py:66-67 | The digit count of a literal is at most its length. |
| Values.DigitCountAppend | ignite.py:66-67 | Digit counts add up over a concatenation. |
| Values.CountUnsigned | ignite.py:66-67 | The sign does not count as a digit. |
| Values.DigitCountOfDigits | ignite.py:66-67 | In a string of digits, every character counts towards the limit. |
| Values.TooManyDigitsRefused | ignite.py:66-67 | `int()` refuses a well-formed literal of more than 4300 digits with the digit-limit error, whatever its sign and surrounding whitespace. |
| Values.SkipIntSpacePrefix | ignite.py:66-67 | Leading `int()` whitespace in front of a character that is not whitespace is removed, and nothing more. |
| Values.DropIntSpaceSuffix | ignite.py:66-67 | The same for trailing whitespace. |
| Values.TrimIntSpaceSurrounded | ignite.py:66-67 | Trimming `w1 + x + w2` gives `x` when `w1` and `w2` are `int()` whitespace and `x` neither starts nor ends with it. |
| Values.ParseIntOfTrimmed | ignite.py:66-67 | `int()` reads only what is left after trimming. |
| Values.ShowEnds | ignite.py:66-67 | `str(n)` neither starts nor ends with `int()` whitespace. |
| Values.ToInt | ignite.py:66-67 | `int()` returns an integer as it is and a boolean as 1 or 0. It fails with a type error on None, a list or a mapping. |
| Values.ShowNat | ignite.py:66-67 | `str(n)` for a natural number is a non-empty string of digits. |
| Values.ShowNatDigits | ignite.py:66-67 | Those digits are well-formed digit groups whose value is `n`. |
| Values.ShowDigits | ignite.py:66-67 | `str(n)` writes at least one digit. |
| Values.ParseShow | ignite.py:66-67 | `int(str(n)) == n` for every `n` of at most 4300 digits, which is every `n` that `str()` writes. This also holds for a port given as a string in the configuration. |
| Values.ParseShowSurrounded | ignite.py:66-67 | `int(w1 + str(n) + w2) == n` when `w1` and `w2` are whitespace that `int()` skips and `n` has at most 4300 digits. |
| Values.TrimKeepsSeparator | ignite.py:66-67 | Trimming keeps a leading separator U+001C to U+001F. |
| Values.IntRefusesSeparators | ignite.py:66-67 | A string that starts with U+001C to U+001F is refused by `int()`, although `str.isspace` accepts those characters. |
| Services.Require | ignite.py:60-81 | `config[key]` is the value when the key is present and a `KeyError` for that key otherwise. |
| Services.PortNumber | ignite.py:66-67 | A port field converts exactly as `int()` does, and a conversion error is wrapped as a bad port number. |
| Services.MatchLength | ignite.py:60 | The greedy match of `[a-z0-9-]+` at the start of the name is a run of name characters, followed by the end or by a character outside the class. |
| Services.MatchesName | ignite.py:60-61 | The name check passes iff the name is non-empty and its first character is in `[a-z0-9-]`. |
| Services.ResolvePort | ignite.py:65-69 | A port resolves iff `host` and `container` are present and convert with `int()`. Each error is stated, in source order: host key, host value, container key, container value. `protocol` defaults to `tcp`. |
| Services.ResolveMount | ignite.py:73-77 | A mount resolves iff `host` and `container` are present. `host` is checked first. `read_only` defaults to `False`. |
| Services.ResolveService | ignite.py:59-92 | The errors come in source order: missing name, name not a string, bad name, first bad port, first bad mount, missing image. The entry resolves iff none applies. Then: environment defaults to `{}`; `is_enabled` is the truthiness of the value, default `True`; ports and mounts resolve element by element in order; `command` is present iff given and truthy. |
| Services.LoadService | ignite.py:59-92 | The two appending loops and the conditional insertion of `command` compute exactly `ResolveService`. |
| Services.PrefixMatchAcceptsTrailingJunk | ignite.py:60-61 | `"abc!"` and `"-"` are accepted as names. |
| Services.BadFirstCharacterRefused | ignite.py:60-61 | `""`, `"Nginx"` and `"_x"` are refused, each with its own name in the error. |
| Services.NginxExample | ignite.py:59-92 | A single-port entry resolves to the expected record with every default applied. |
| Records.MakeUnit | ignite.py:14-33 | A unit keeps its name and enable flag. `contents` is present iff the given text is non-empty, and then it is the normalised, clean text. `dropins` is present iff the list is non-empty, and then it is that list. |
| Records.MakeDropin | ignite.py:36-45 | A drop-in keeps its name, and its contents are the normalised, clean text. |
| Records.MakeFile | ignite.py:48-56 | A file lives on the `root` filesystem with the given path, inline contents and mode. |
| Records.FileDefaults | ignite.py:48 | `_file` defaults to empty contents and mode 644. |
| Records.BareUnit | ignite.py:14-33 | A unit given neither contents nor drop-ins carries only its name and enable flag. |
| Records.UnitContentsStable | ignite.py:29-30 | When the given and the normalised contents are non-empty, building a unit again from its own normalised contents gives the same unit. |
| Ignition.Assemble | ignite.py:100-142 | The document is built iff every service resolves, and otherwise the error is the first failing service's. Units, in order: `docker.service` (enabled, with the `docker-swarm.conf` drop-in) and `hive.service` (enabled, its literal normalised with the orchestrator, default `swarm`). Files, in order: the manifest at `/opt/hive/etc/services.json` (mode 600) with the services' records in input order, then the script at `/opt/hive/bin/hive` (mode 700). All on `root`. |
| Ignition.DockerSwarmBodyWellFormed | ignite.py:122-125 | The `docker-swarm.conf` literal is a well-formed indented literal. |
| Ignition.DockerSwarmContents | ignite.py:120-126 | The drop-in's normalised contents are exactly its two lines. |
| Ignition.HiveUnitHeadLines | ignite.py:105-111 | The literal lines before `ExecStart` contain no line break and no leading indentation. |
| Ignition.HiveUnitTailLines | ignite.py:113-116 | The same for the lines after `ExecStart`. |
| Ignition.HiveUnitBodyWellFormed | ignite.py:104-117 | The `hive.service` literal is a well-formed indented literal when the orchestrator has no line break. |
| Ignition.HiveUnitContents | ignite.py:101-118 | The normalised `hive.service` contents are its twelve lines, and line 8 is `ExecStart=/opt/hive/bin/hive <orchestrator>`. |
| Ignition.AssembledUnits | ignite.py:101-134 | When the orchestrator (default `swarm`) holds no line break: in an assembled document, the drop-in and the `hive.service` contents are the literals' lines, and `hive` is started with that orchestrator. |
| Ignition.NginxDocument | ignite.py:100-142 | One nginx service compiles, for any orchestrator, to a manifest holding exactly its resolved record. |
| Ignition.EmptyNameDocument | ignite.py:59-100 | A service with an empty name after a valid one makes the whole compilation fail with `InvalidName("")`. |

## Left out

- Reading `hive.sh` and `config.yml` (ignite.py:95-99): I/O. The loaded configuration and the script text are parameters of `Assemble`.
- `yaml.load` and `yaml.dump` (ignite.py:99, 145): parsing and serialising are external libraries. The input is typed data, and the output is the document value.
- `json.dumps(services)` (ignite.py:138): the JSON encoding is not modelled. The manifest file holds the list of service records that would be encoded.
- YAML floating-point numbers, dates, and other scalar types: not modelled. `int()` is modelled on None, booleans, integers, strings, lists and mappings.
- Values.ParseInt: accepts ASCII digits only. Python's `int()` also accepts Unicode decimal digits.
- Values.ParseInt: the digit limit is fixed at 4300, the default of Python 3.11 and later and of the 3.7.14, 3.8.14, 3.9.14 and 3.10.7 security releases. Older Pythons have no limit. A different limit set with `sys.set_int_max_str_digits` or `PYTHONINTMAXSTRDIGITS` is not modelled.
- Values.ParseInt: in a malformed string, CPython reports the digit limit instead when the leading run of digits already exceeds it. The model reports the malformed literal. Both are `ValueError`.
- Input of the wrong shape is not representable, because the raw entries are typed records. Examples: `ports` that is not a list, a port entry that is not a mapping, an `orchestrator` that is not a string. On such input the source raises a `TypeError` or formats the value into the unit text.
- Records.MakeUnit: the source builds the dictionary and then inserts keys into it. The model returns the finished record, with absent keys as `None`. The source treats `contents=None` and an empty string alike, so absent contents are the empty string.
- Text.Margin: follows `textwrap.dedent` as defined up to Python 3.13 (blank means spaces and tabs only). Python 3.14 also treats lines of other whitespace as blank.
- Ignition.HiveUnitContents: covers only orchestrator values without a line break. An orchestrator with a line break would add lines to the unit.
- Ignition.AssembledUnits: covers only orchestrator values without a line break, for the same reason. Such a value adds an unindented line to the literal, so the margin becomes empty and the other lines keep their indentation. `Assemble` itself covers every orchestrator.
- The error message text of the `ValueError` at ignite.py:61: the model keeps the offending name in `InvalidName`.
