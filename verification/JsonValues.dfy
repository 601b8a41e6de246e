/** JSON documents as the program inspects them: a tree of values.  Text syntax is not modelled;
    where the program serializes or parses, a `Wire` is passed in. */
module JsonValues {
  import opened Wrappers

  type byte = x: int | 0 <= x < 256

  type Bytes = seq<byte>

  const U64_MAX: nat := 0xFFFF_FFFF_FFFF_FFFF

  /** 64-bit unsigned addition that stops at the top value. */
  function SaturatingAdd(x: nat, y: nat): nat {
    if x + y <= U64_MAX then x + y else U64_MAX
  }

  /** Unsigned subtraction that stops at zero. */
  function SaturatingSub(x: nat, y: nat): nat {
    if y <= x then x - y else 0
  }

  datatype Json =
    | Null
    | Bool(truth: bool)
    | Int(number: int)
    | Float(approx: real)
    | Str(text: string)
    | Arr(items: seq<Json>)
    | Obj(fields: map<string, Json>)
  {
    /** Lookup by name; nothing but an object has members. */
    function Get(name: string): Option<Json> {
      if Obj? && name in fields then Some(fields[name]) else None
    }

    function StringField(name: string): Option<string> {
      match Get(name)
      case Some(Str(text)) => Some(text)
      case _ => None
    }

    /** A member holding an integer that fits in 64 unsigned bits. */
    function U64Field(name: string): Option<nat> {
      match Get(name)
      case Some(Int(number)) => if 0 <= number <= U64_MAX then Some(number) else None
      case _ => None
    }
  }

  /** A compact serializer and a parser. */
  datatype Wire = Wire(encode: Json -> Bytes, decode: Bytes -> Option<Json>) {
    /** A string member free of characters that JSON escapes costs exactly its own length. */
    ghost predicate ChargesPlainStringsByLength() {
      forall fields: map<string, Json>, name: string, text: string | IsPlain(text) ::
        Size(fields, name, text) == Size(fields, name, "") + |text|
    }

    /** Serialized size of an object once a string member is set. */
    function Size(fields: map<string, Json>, name: string, text: string): nat {
      |encode(Obj(fields[name := Str(text)]))|
    }
  }

  /** Printable ASCII without the two characters that JSON must escape. */
  predicate IsPlain(text: string) {
    forall i | 0 <= i < |text| :: ' ' <= text[i] <= '~' && text[i] != '"' && text[i] != '\\'
  }
}
