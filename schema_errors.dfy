/** The text `validateSchemaErrors` builds from a list of schema errors: one
    `key: value` line per property, a blank line after each error, all joined
    with HTML line breaks. */
module SchemaErrors {

  /** A property value: a string rendering of a primitive, or something
      `typeof` calls an object (`null`, an object or an array). */
  datatype Value = Null | Primitive(shown: string) | Composite(members: seq<Field>)

  datatype Field = Field(key: string, value: Value)

  /** One error object, as its properties in the order `Object.keys` lists them. */
  type SchemaError = seq<Field>

  const LineBreak: string := "<br />"

  /** A primitive is shown as it is; objects go through the serializer
      (`JSON.stringify`), a parameter here. */
  function ShowValue(v: Value, stringify: Value -> string): string
  {
    if v.Primitive? then v.shown else stringify(v)
  }

  function Entry(f: Field, stringify: Value -> string): string
  {
    f.key + ": " + ShowValue(f.value, stringify)
  }

  function FieldEntries(error: SchemaError, stringify: Value -> string): seq<string>
  {
    seq(|error|, k requires 0 <= k < |error| => Entry(error[k], stringify))
  }

  /** The lines of one error: one per property, then a blank one. */
  function ErrorEntries(error: SchemaError, stringify: Value -> string): seq<string>
  {
    FieldEntries(error, stringify) + [""]
  }

  /** The lines of all errors, in order. */
  function Entries(errors: seq<SchemaError>, stringify: Value -> string): seq<string>
  {
    if errors == [] then []
    else Entries(errors[..|errors| - 1], stringify) + ErrorEntries(errors[|errors| - 1], stringify)
  }

  /** `Array.prototype.join`: the parts with `sep` between neighbours. */
  function Join(parts: seq<string>, sep: string): string
  {
    if |parts| == 0 then ""
    else if |parts| == 1 then parts[0]
    else Join(parts[..|parts| - 1], sep) + sep + parts[|parts| - 1]
  }

  function SchemaErrorText(errors: seq<SchemaError>, stringify: Value -> string): string
  {
    Join(Entries(errors, stringify), LineBreak)
  }

  predicate EndsWith(s: string, suffix: string)
  {
    |suffix| <= |s| && s[|s| - |suffix|..] == suffix
  }

  /** How many of `lines` are blank. */
  function Blanks(lines: seq<string>): nat
  {
    if lines == [] then 0
    else Blanks(lines[..|lines| - 1]) + (if lines[|lines| - 1] == "" then 1 else 0)
  }

  function FieldCount(errors: seq<SchemaError>): nat
  {
    if errors == [] then 0 else FieldCount(errors[..|errors| - 1]) + |errors[|errors| - 1]|
  }

  lemma {:induction false} BlanksAppend(a: seq<string>, b: seq<string>)
    ensures Blanks(a + b) == Blanks(a) + Blanks(b)
  {
    if b != [] {
      assert (a + b)[..|a + b| - 1] == a + b[..|b| - 1];
      BlanksAppend(a, b[..|b| - 1]);
    } else {
      assert a + b == a;
    }
  }

  /** A property line is never blank: it holds at least the `": "` separator. */
  lemma FieldEntriesNotBlank(error: SchemaError, stringify: Value -> string)
    ensures Blanks(FieldEntries(error, stringify)) == 0
  {
    var m := FieldEntries(error, stringify);
    if error != [] {
      var front := error[..|error| - 1];
      assert m[..|m| - 1] == FieldEntries(front, stringify);
      FieldEntriesNotBlank(front, stringify);
      assert |m[|m| - 1]| >= 2;
    }
  }

  /** There is one line per property and one per error, and the blank lines
      are exactly the one closing each error. */
  lemma {:induction false} EntriesShape(errors: seq<SchemaError>, stringify: Value -> string)
    ensures |Entries(errors, stringify)| == FieldCount(errors) + |errors|
    ensures Blanks(Entries(errors, stringify)) == |errors|
  {
    if errors != [] {
      var front, last := errors[..|errors| - 1], errors[|errors| - 1];
      EntriesShape(front, stringify);
      FieldEntriesNotBlank(last, stringify);
      BlanksAppend(Entries(front, stringify), ErrorEntries(last, stringify));
      BlanksAppend(FieldEntries(last, stringify), [""]);
      assert Blanks([""]) == 1 by {
        assert [""][..0] == [];
      }
    }
  }

  /** Each error ends with a blank line, so with any errors the last line is blank. */
  lemma LastEntryBlank(errors: seq<SchemaError>, stringify: Value -> string)
    requires errors != []
    ensures var m := Entries(errors, stringify); |m| >= 1 && m[|m| - 1] == ""
  {
  }

  /** With at least two lines the text ends in the separator followed by the
      last line. */
  lemma JoinEnds(parts: seq<string>, sep: string)
    requires |parts| >= 2
    ensures EndsWith(Join(parts, sep), sep + parts[|parts| - 1])
  {
    var j := Join(parts, sep);
    var tail := sep + parts[|parts| - 1];
    assert j == Join(parts[..|parts| - 1], sep) + tail;
    assert j[|j| - |tail|..] == tail;
  }

  /** The text ends in a line break exactly when it has at least two lines,
      that is when there are two or more errors or one with a property. An
      error list of one empty error gives the empty text. */
  lemma EndsWithBreakIff(errors: seq<SchemaError>, stringify: Value -> string)
    ensures EndsWith(SchemaErrorText(errors, stringify), LineBreak)
            <==> |errors| >= 2 || (|errors| == 1 && |errors[0]| > 0)
  {
    var m := Entries(errors, stringify);
    EntriesShape(errors, stringify);
    if |errors| == 1 {
      assert errors[..0] == [];
      assert FieldCount(errors) == |errors[0]| by {
        assert FieldCount(errors[..0]) == 0;
      }
    }
    if |errors| >= 2 {
      assert FieldCount(errors) + |errors| >= 2;
    }
    if |m| >= 2 {
      LastEntryBlank(errors, stringify);
      JoinEnds(m, LineBreak);
      assert LineBreak + m[|m| - 1] == LineBreak;
    } else if |m| == 1 {
      LastEntryBlank(errors, stringify);
      assert SchemaErrorText(errors, stringify) == "";
    }
  }

  /** The text is empty exactly when there is no error or a single error
      without properties. */
  lemma EmptyTextIff(errors: seq<SchemaError>, stringify: Value -> string)
    ensures SchemaErrorText(errors, stringify) == "" <==> errors == [] || errors == [[]]
  {
    var m := Entries(errors, stringify);
    EntriesShape(errors, stringify);
    EndsWithBreakIff(errors, stringify);
    if errors == [[]] {
      assert errors[..0] == [];
      assert m == [""];
    }
    if |errors| == 1 && errors != [[]] {
      assert |errors[0]| > 0;
    }
  }
}
