# 8211createfromxml, modelled in Dafny

This project models the core of GDAL's `8211createfromxml` tool
(`frmts/iso8211/8211createfromxml.cpp`). The tool rebuilds an ISO 8211
(DDF) file from its XML description. It reads a `DDFModule` element whose
children are `DDFFieldDefn` elements (field definitions with
`DDFSubfieldDefn` children) and `DDFRecord` elements (records whose
`DDFField` children carry either a raw `0x...` value or `DDFSubfield`
children). It then calls the ISO 8211 encoder to initialise a module, add
the field definitions, create the output file, and add, fill and write
each record.

In the model the encoder is a log of the calls made on it (`Encoder.Op`).
A run is a `Trace`: the calls in order, plus the fatal exit that ended the
run, if any. Each `exit(1)` of the tool becomes an `Error`: `Usage`,
`Input`, `Schema` or `Reference`. Calls already made before an exit stay in
the trace, just as records already written stay in the file.

The model follows the source's form:

- The decisions on strings are functions. These are the structure and type
  code chains, the array descriptor, the format-control choice and the
  module defaults.
- The loops are methods with `while`/`for` loops and invariants. These are
  the argument loop, the tag-width scan, the hex decoding into a
  freshly allocated buffer, the subfield-definition walk, the per-record and
  per-field occurrence counters (`map<string, nat>`, read as
  `std::map::operator[]` reads), the `bCreated` flag and the walk over the
  module's children. Each method is proved equal to a specification
  function: `CheckArguments` to `Arguments`, `ScanTagWidth` to
  `InferredWidth`, `DecodeBuffer` to `Decode`, `BuildFieldDefn` to
  `DefnOps`, `AssembleSubfields` to `SubfieldsOps`, `AssembleField` to
  `FieldOps`, `AssembleRecord` to `RecordTrace`, `WalkChildren` to `Walk`
  and `Rebuild` to `Run`.
- Lemmas state what the specification functions promise.

Text is a Dafny `string` with one `char` per byte of the document. The
decoded hex buffers are strings of chars below 256.

Files: `wrappers.dfy` (Option, Result), `ctext.dfy` (C string helpers,
`atoi`, `%d`), `hex.dfy`, `xml_tree.dfy`, `encoder.dfy`,
`command_line.dfy`, `tag_width.dfy`, `module_settings.dfy`,
`field_defn.dfy`, `record.dfy`, `create_from_xml.dfy` and `scenarios.dfy`
(worked examples).

Two behaviours of the code a reader may not expect, which the model keeps:

- With exactly one argument, the code goes on with a null output name,
  although its usage message (line 47) names two arguments. It does not
  stop with a usage error. `OneArgumentHasNoOutput` and
  `SingleArgumentRun` state this.
- Hex decoding is the tool's exact arithmetic. Each character's nibble is
  `10 + c - 'A'` for `'A'..'F'` and `c - '0'` otherwise, and the byte is
  `(high * 16 + low) mod 256`. An odd trailing digit is dropped, and
  lower-case digits decode wrongly ("ab" gives 0x42). Nothing is validated.

## Model

| member | source | states |
|---|---|---|
| CommandLine.CheckArguments | frmts/iso8211/8211createfromxml.cpp:28-49 | The argument loop returns what `Arguments` gives. Zero arguments, or three and more, give a usage error. Otherwise the input is the first argument, and the output is the second or absent. |
| CommandLine.OneArgumentHasNoOutput | frmts/iso8211/8211createfromxml.cpp:28-49 | A single argument is accepted as the input, with no output name. |
| TagWidth.ScanTagWidth | frmts/iso8211/8211createfromxml.cpp:66-84 | The scan loop returns the first non-zero tag length among the `DDFFieldDefn` children, or 0 if there is none. It returns the schema error exactly when a later tag, the empty tag included, has a different length. |
| TagWidth.ConsistentWidth | frmts/iso8211/8211createfromxml.cpp:66-84 | When the scan succeeds, every non-empty tag has the inferred width. |
| TagWidth.FirstNonZero | frmts/iso8211/8211createfromxml.cpp:75-76 | The width is 0 exactly when every tag is empty. Otherwise it is the length of the first non-empty tag. |
| CText.AtoiFormatInt | frmts/iso8211/8211createfromxml.cpp:114-122 | `atoi` of a number printed with "%d" gives the number back, for every integer. |
| ModuleDefaults.IntSettingValue | frmts/iso8211/8211createfromxml.cpp:129-131 | An integer setting keeps its current value when its attribute is absent. Otherwise it is `atoi` of the attribute. |
| ModuleDefaults.SettingsFromAttributes | frmts/iso8211/8211createfromxml.cpp:86-128 | Each argument of `Initialize` is its default ('3', 'L', 'E', '1', ' ', " ! ", 3, 4, inferred width) when the attribute is absent. A char setting is otherwise the attribute's first byte, or NUL if the attribute is empty. The extended charset is cut to 3 bytes. An integer setting is `atoi` of the attribute, so `_sizeFieldTag` overrides the inferred width. |
| ModuleDefaults.DefaultSettings | frmts/iso8211/8211createfromxml.cpp:86-122 | A module element without attributes yields exactly the defaults '3', 'L', 'E', '1', ' ', " ! ", 3 and 4, and the inferred tag width as `_sizeFieldTag`. |
| CText.Snprintf | frmts/iso8211/8211createfromxml.cpp:108-113 | Copying into a buffer of n bytes keeps all of a string shorter than n, and exactly the first n-1 bytes of a longer one. |
| FieldDefnBuilder.ParseStructCode | frmts/iso8211/8211createfromxml.cpp:144-154 | The result is elementary, or the code whose literal is exactly the input. An unrecognised string is elementary. |
| FieldDefnBuilder.ParseStructCodeName | frmts/iso8211/8211createfromxml.cpp:144-154 | Each of the four literals parses to its own code, so together with the ensures of ParseStructCode the parse is an exact match. |
| FieldDefnBuilder.ParseTypeCode | frmts/iso8211/8211createfromxml.cpp:156-172 | The result is char_string, or the code whose literal is exactly the input. |
| FieldDefnBuilder.ParseTypeCodeName | frmts/iso8211/8211createfromxml.cpp:156-172 | Each of the seven literals parses to its own code. |
| FieldDefnBuilder.SubfieldDefnOps | frmts/iso8211/8211createfromxml.cpp:191-202 | The subfield phase makes only `AddSubfield` calls. |
| FieldDefnBuilder.DefnOpsShape | frmts/iso8211/8211createfromxml.cpp:174-209 | The definition is created first. `Create` gets the attribute's format controls exactly when the code is elementary and the attribute exists. Its array descriptor is "" for a vector, "*" for an array, and the `arrayDescr` attribute (default "") for elementary and concatenated. Every `AddSubfield` comes before `SetFormatControls`. `SetFormatControls` is made exactly when the attribute exists, whatever the structure code, and carries the attribute's text. The definition is added to the module last. |
| FieldDefnBuilder.BuildFieldDefn | frmts/iso8211/8211createfromxml.cpp:142-209 | The builder loop makes exactly the calls of `DefnOps`: `Create`, one `AddSubfield` per `DDFSubfieldDefn` child in document order, `SetFormatControls` when the attribute exists, then `AddField`. |
| Hex.Decode | frmts/iso8211/8211createfromxml.cpp:263-265 | The decoded buffer has `strlen / 2` bytes, each below 256. |
| Hex.DecodeAt | frmts/iso8211/8211createfromxml.cpp:266-281 | Byte i depends only on characters 2i and 2i+1: `(nibble(hi) * 16 + nibble(lo)) mod 256`. |
| Hex.DecodeBuffer | frmts/iso8211/8211createfromxml.cpp:263-281 | The fill loop over the freshly allocated buffer produces exactly `Decode` of the hex text. |
| Hex.DecodeEncode | frmts/iso8211/8211createfromxml.cpp:266-281 | Decoding the upper-case hex text of any byte buffer gives the buffer back. |
| Hex.EncodeDecode | frmts/iso8211/8211createfromxml.cpp:266-281 | Re-encoding the decoding of an even-length upper-case hex text gives the text back. |
| Hex.DecodeDropsOddDigit | frmts/iso8211/8211createfromxml.cpp:264 | A trailing unpaired digit contributes nothing. |
| Hex.LowerCaseDigitsMisdecode | frmts/iso8211/8211createfromxml.cpp:271-279 | Lower-case letters go through the `c - '0'` branch, so "ab" decodes to 0x42. |
| RecordAssembler.FindFieldDefn | frmts/iso8211/8211createfromxml.cpp:244-253 | The lookup finds nothing exactly when no definition has that tag. Otherwise it finds the first definition with that tag. |
| RecordAssembler.ReferenceErrorIff | frmts/iso8211/8211createfromxml.cpp:244-253 | A record stops with a reference error exactly when one of its `DDFField` children names no known definition. |
| RecordAssembler.FieldsTrace | frmts/iso8211/8211createfromxml.cpp:238-363 | A record's children make only field calls. A stop is always a reference error for a name that has no definition. |
| RecordAssembler.OccurrencesIncrease | frmts/iso8211/8211createfromxml.cpp:255-256 | Occurrence numbers count same-named earlier elements, from 0. A later same-named field gets a larger number. The same holds for subfields. |
| RecordAssembler.SubfieldDispatch | frmts/iso8211/8211createfromxml.cpp:304-356 | "float" sets the text as a float subfield, "integer" sets `atoi` of the text as an integer subfield, and "string" sets the text verbatim. "binary" with a "0x" value sets the decoded bytes as a string subfield. Any other type sets nothing. Every call carries the field's name and occurrence and the subfield's name and occurrence. |
| RecordAssembler.SubfieldsOps | frmts/iso8211/8211createfromxml.cpp:288-359 | A field's subfield calls are at most one per child, and each sets a subfield of that field instance. |
| RecordAssembler.RawOrStructured | frmts/iso8211/8211createfromxml.cpp:258-360 | The field is added first. With a "0x" value, exactly one `SetFieldRaw` of the decoded bytes follows and no subfield is read. Otherwise there is no `SetFieldRaw`, and every other call sets a subfield of this field instance. |
| RecordAssembler.RecordWrittenLast | frmts/iso8211/8211createfromxml.cpp:221-366 | A record starts with its size-field settings. It is written once, as its last call, unless a reference error stops it. It never creates the output. |
| RecordAssembler.AssembleSubfields | frmts/iso8211/8211createfromxml.cpp:288-359 | The subfield loop, with a fresh per-field counter map, makes exactly the calls of `SubfieldsOps`. The counter advances for every `DDFSubfield`, even one whose type sets nothing. |
| RecordAssembler.AssembleField | frmts/iso8211/8211createfromxml.cpp:258-360 | One field instance makes exactly the calls of `FieldOps`. |
| RecordAssembler.AssembleRecord | frmts/iso8211/8211createfromxml.cpp:221-366 | The record loop, with a fresh per-record counter map, makes exactly the calls of `RecordTrace` and stops at the first undefined field name. |
| CreateFromXml.Walk | frmts/iso8211/8211createfromxml.cpp:136-370 | Walking the module's children can only stop with a reference error. |
| CreateFromXml.WalkChildren | frmts/iso8211/8211createfromxml.cpp:133-370 | The main loop, with the `bCreated` flag and the module's growing definition list, makes exactly the calls of `Walk`. |
| CreateFromXml.CreatedOnce | frmts/iso8211/8211createfromxml.cpp:133-219 | The output is created once if the module has a record, and never otherwise. A walk stops only inside a record. |
| CreateFromXml.RecordsWritten | frmts/iso8211/8211createfromxml.cpp:211-370 | A finished walk writes every record. A walk stopped by a reference error has written exactly the records before the failing one, and none after it. |
| CreateFromXml.CreateNamesOutput | frmts/iso8211/8211createfromxml.cpp:215-219 | Every `Create` receives the output name from the command line. |
| CreateFromXml.EarlyExits | frmts/iso8211/8211createfromxml.cpp:28-84 | A usage error happens exactly for 0 or 3+ arguments. A usage error, a missing module element or a tag-width mismatch each stop the run before any encoder call. |
| CreateFromXml.RunPastScan | frmts/iso8211/8211createfromxml.cpp:124-376 | Past the scan, a run is `Initialize` and `SetFieldControlLength`, then the walk, then `Close` if nothing failed. |
| CreateFromXml.CompletedRun | frmts/iso8211/8211createfromxml.cpp:124-376 | A finished run starts with `Initialize` and ends with `Close`. It creates the output exactly once if there is a record, and writes as many records as there are. |
| CreateFromXml.SingleArgumentRun | frmts/iso8211/8211createfromxml.cpp:28-49 | With one argument the run is not a usage error, and any `Create` gets no file name. |
| CreateFromXml.Rebuild | frmts/iso8211/8211createfromxml.cpp:20-377 | The tool's `main` makes exactly the calls of `Run` and ends with the same exit. |
| Scenarios.TagWidthExamples | frmts/iso8211/8211createfromxml.cpp:66-84 | Tags of lengths 4, 4, 4 give width 4. Tags of lengths 4 and 5 give a schema error. |
| Scenarios.EmptyTagExamples | frmts/iso8211/8211createfromxml.cpp:75-81 | An empty tag before the first non-empty one is passed over. After it, the empty tag is a schema error. |
| Scenarios.RawValueExample | frmts/iso8211/8211createfromxml.cpp:258-285 | A field whose value is "0x4142" is added and then gets exactly one `SetFieldRaw` of the bytes 0x41, 0x42, with no subfield call. |
| Scenarios.RepeatedFieldExample | frmts/iso8211/8211createfromxml.cpp:255-324 | Two "0001" fields with a "TXT" string subfield each get field occurrences 0 and 1, and each subfield gets occurrence 0. |
| Scenarios.UnknownTypeAdvancesCounter | frmts/iso8211/8211createfromxml.cpp:302-356 | A subfield of unknown type sets nothing but uses up an occurrence number. |
| Scenarios.UndeclaredFieldExample | frmts/iso8211/8211createfromxml.cpp:248-253 | A field name without a definition stops the record with a reference error. |

## Left out

- XML parsing and search (`CPLParseXMLFile`, `CPLSearchXMLNode`, lines 51-64). The model starts from the `DDFModule` element as an `Option<Node>`: `None` stands for an unparsable document or a missing element.
- `CPLGetXMLValue` is reduced to two lookups. An attribute lookup does not also match a child element of the same name. An element's text is the content of its only child, when that child is a text node.
- The encoder (`DDFModule`, `DDFFieldDefn`, `DDFRecord`, declared in iso8211.h, which is not part of this model) is a log of calls. Leader, directory and field serialisation, `Write` and `Close` are not modelled.
- The encoder's own defaults are a parameter (`Defaults`), because iso8211.h is not part of this model. These are the field control length after `Initialize`, and a new record's size-field length, position and tag width.
- RecordAssembler.FindFieldDefn: the encoder's lookup is modelled as the first exact match on the definition's tag. Any further matching the encoder may do (its code is not part of this model) is not captured.
- Float parsing (`CPLAtof`, line 309): a float subfield keeps its text.
- CText.Atoi: integers are unbounded, so C `int` overflow in `atoi`, in `(int)strlen` and in the nibble arithmetic is not modelled. C's left shift of a negative nibble is taken as two's-complement wrap-around modulo 256.
- Hex.DecodeBuffer: the malloc'd buffer is a fresh Dafny array that is filled and then read out as a string. Freeing it is not modelled.
- Diagnostics printed to stdout/stderr, process termination, `CPLDestroyXMLNode` and the memory management are not modelled. A fatal exit is the `exit` field of the trace.
- The commented-out `SetReuseHeader` (lines 224-227) is not modelled.
- frmts/nitf/nitfdump.c is not part of this model. It is a separate read-only dumper.
