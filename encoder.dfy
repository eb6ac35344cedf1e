/**
 * The binary encoder, seen from the rebuild tool: the calls it makes on the
 * module, on each field definition and on each record, in the order it makes
 * them. Serialisation itself belongs to the encoder and is not modelled.
 */
module Encoder {
  import opened Wrappers

  /** The data structure code of a field definition. */
  datatype StructCode = Elementary | Vector | Array | Concatenated

  /** The data type code of a field definition. */
  datatype TypeCode =
    | CharString | ImplicitPoint | ExplicitPoint | ExplicitPointScaled
    | CharBitString | BitString | MixedDataType

  /** The arguments of `DDFModule::Initialize`. */
  datatype ModuleSettings = ModuleSettings(
    interchangeLevel: char,
    leaderIden: char,
    codeExtensionIndicator: char,
    versionNumber: char,
    appIndicator: char,
    extendedCharSet: string,
    sizeFieldLength: int,
    sizeFieldPos: int,
    sizeFieldTag: int)

  /**
   * Values the encoder starts from and the tool reads back as defaults: the
   * module's field control length after initialisation, and a fresh
   * record's size-field length, position and tag width.
   */
  datatype Defaults = Defaults(
    fieldControlLength: int,
    recordSizeFieldLength: int,
    recordSizeFieldPos: int,
    recordSizeFieldTag: int)

  datatype Op =
    // on the module
    | Initialize(settings: ModuleSettings)
    | SetFieldControlLength(length: int)
    | AddFieldDefn
    | Create(outFile: Option<string>)
    | Close
    // on the field definition being built
    | DefnCreate(tag: string, fieldName: string, arrayDescr: string,
                 structCode: StructCode, typeCode: TypeCode, formatControls: Option<string>)
    | DefnAddSubfield(subfieldName: string, format: string)
    | DefnSetFormatControls(controls: string)
    // on the record being assembled
    | NewRecord(sizeFieldLength: int, sizeFieldPos: int, sizeFieldTag: int)
    | AddField(defn: nat)
    | SetFieldRaw(fieldOcc: nat, data: string)
    | SetFloatSubfield(fieldName: string, fieldOcc: nat, subfieldName: string, subfieldOcc: nat, text: string)
    | SetIntSubfield(fieldName: string, fieldOcc: nat, subfieldName: string, subfieldOcc: nat, value: int)
    | SetStringSubfield(fieldName: string, fieldOcc: nat, subfieldName: string, subfieldOcc: nat, bytes: string)
    | Write

  /** The fatal exits of the tool; each ends the process with status 1. */
  datatype Error =
    | Usage                        // wrong number of arguments
    | Input                        // unparsable document or no DDFModule element
    | Schema                       // field definition tags of different lengths
    | Reference(fieldName: string) // a record names an undeclared field

  /** The calls made, and the fatal exit that ended the run, if any. */
  datatype Trace = Trace(ops: seq<Op>, exit: Option<Error>)

  function CreateCount(ops: seq<Op>): nat
  {
    if ops == [] then 0 else CreateCount(ops[..|ops| - 1]) + (if ops[|ops| - 1].Create? then 1 else 0)
  }

  function WriteCount(ops: seq<Op>): nat
  {
    if ops == [] then 0 else WriteCount(ops[..|ops| - 1]) + (if ops[|ops| - 1].Write? then 1 else 0)
  }

  lemma {:induction false} CountsAppend(a: seq<Op>, b: seq<Op>)
    ensures CreateCount(a + b) == CreateCount(a) + CreateCount(b)
    ensures WriteCount(a + b) == WriteCount(a) + WriteCount(b)
  {
    if b != [] {
      assert (a + b)[..|a + b| - 1] == a + b[..|b| - 1];
      CountsAppend(a, b[..|b| - 1]);
    } else {
      assert a + b == a;
    }
  }

  lemma {:induction false} NoCreateOrWrite(ops: seq<Op>)
    requires forall i :: 0 <= i < |ops| ==> !ops[i].Create? && !ops[i].Write?
    ensures CreateCount(ops) == 0 && WriteCount(ops) == 0
  {
    if ops != [] {
      NoCreateOrWrite(ops[..|ops| - 1]);
    }
  }

  lemma {:induction false} CreateCountZero(ops: seq<Op>)
    ensures CreateCount(ops) == 0 <==> forall i :: 0 <= i < |ops| ==> !ops[i].Create?
  {
    if ops != [] {
      CreateCountZero(ops[..|ops| - 1]);
      assert forall i :: 0 <= i < |ops| - 1 ==> ops[..|ops| - 1][i] == ops[i];
    }
  }
}
