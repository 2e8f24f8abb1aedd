/**
 Schema definitions as comma-separated fields, and what the byte comparison that
 admits a derivative schema says about them.
 */
module SchemaText {

  const MAX_SCHEMA_LENGTH := 1024

  /** `is_append_only_schema` */
  predicate IsAppendOnly(predecessor: string, successor: string) {
    if |successor| <= |predecessor| || |predecessor| > MAX_SCHEMA_LENGTH || |successor| > MAX_SCHEMA_LENGTH then false
    else successor[..|predecessor|] == predecessor && successor[|predecessor|] == ','
  }

  /** The fields between the commas; a text without a comma is one field. */
  function Fields(text: string): (fs: seq<string>)
    ensures |fs| >= 1
  {
    if text == "" then [""] else Prepend(text[0], Fields(text[1..]))
  }

  function Prepend(c: char, fs: seq<string>): (r: seq<string>)
    requires fs != []
    ensures r != []
  {
    if c == ',' then [""] + fs else [[c] + fs[0]] + fs[1..]
  }

  lemma PrependConcat(c: char, fs: seq<string>, gs: seq<string>)
    requires fs != []
    ensures Prepend(c, fs + gs) == Prepend(c, fs) + gs
  {
    assert (fs + gs)[1..] == fs[1..] + gs;
  }

  function Joined(fs: seq<string>): string
    requires fs != []
  {
    if |fs| == 1 then fs[0] else fs[0] + "," + Joined(fs[1..])
  }

  lemma {:induction false} JoinFields(text: string)
    ensures Joined(Fields(text)) == text
  {
    if text != "" {
      JoinFields(text[1..]);
      var rest := Fields(text[1..]);
      assert Fields(text)[1..] == if text[0] == ',' then rest else rest[1..];
    }
  }

  /** The fields are what the commas leave. */
  lemma {:induction false} FieldsClean(text: string)
    ensures forall i :: 0 <= i < |Fields(text)| ==> ',' !in Fields(text)[i]
  {
    if text != "" { FieldsClean(text[1..]); }
  }

  lemma {:induction false} FieldsConcat(a: string, b: string)
    ensures Fields(a + "," + b) == Fields(a) + Fields(b)
  {
    if a == "" {
      assert a + "," + b == "," + b && ("," + b)[1..] == b;
    } else {
      hide Prepend;
      FieldsConcat(a[1..], b);
      assert (a + "," + b)[1..] == a[1..] + "," + b;
      PrependConcat(a[0], Fields(a[1..]), Fields(b));
    }
  }

  lemma {:induction false} JoinConcat(fs: seq<string>, gs: seq<string>)
    requires fs != [] && gs != []
    ensures Joined(fs + gs) == Joined(fs) + "," + Joined(gs)
  {
    if |fs| == 1 {
      assert (fs + gs)[1..] == gs;
    } else {
      JoinConcat(fs[1..], gs);
      assert (fs + gs)[1..] == fs[1..] + gs;
    }
  }

  /** The comparison of bytes accepts a successor exactly when its fields start
      with the predecessor's and go on, within the length limit. */
  lemma AppendOnlyExact(predecessor: string, successor: string)
    ensures IsAppendOnly(predecessor, successor)
            <==> |successor| <= 1024 && Fields(predecessor) < Fields(successor)
  {
    hide Fields, Joined, Prepend;
    var earlier, later := Fields(predecessor), Fields(successor);
    if IsAppendOnly(predecessor, successor) {
      var tail := successor[|predecessor| + 1..];
      assert successor == predecessor + "," + tail;
      FieldsConcat(predecessor, tail);
    }
    if |successor| <= MAX_SCHEMA_LENGTH && earlier < later {
      var tail := later[|earlier|..];
      assert later == earlier + tail;
      JoinConcat(earlier, tail);
      JoinFields(predecessor);
      JoinFields(successor);
      assert successor == predecessor + "," + Joined(tail);
    }
  }
}
