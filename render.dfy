/**
  The text of one emitted line: the three formats `PrintStruct` writes.

  A field line is written as `<key> <type> ` followed by a raw-string struct tag, where
  `key` is the Go field name (`strcase.ToGoPascal` of the wire name, supplied by the caller).
  The tag as the program writes it opens its raw string with a backtick and never closes
  it; `FieldTextAsWritten` models that, and `LineText` closes it.
*/
module Render {
  import opened Emitter

  /** How many times `c` occurs in `s`. */
  function Occurrences(c: char, s: string): (n: nat)
    ensures n <= |s|
    ensures n == 0 <==> forall i | 0 <= i < |s| :: s[i] != c
  {
    if |s| == 0 then 0
    else (if s[0] == c then 1 else 0) + Occurrences(c, s[1..])
  }

  lemma {:induction false} OccurrencesConcat(c: char, a: string, b: string)
    ensures Occurrences(c, a + b) == Occurrences(c, a) + Occurrences(c, b)
    decreases |a|
  {
    if |a| > 0 {
      assert (a + b)[0] == a[0];
      assert (a + b)[1..] == a[1..] + b;
      OccurrencesConcat(c, a[1..], b);
    } else {
      assert a + b == b;
    }
  }

  /** The field format exactly as the program writes it: the tag's raw string is left open. */
  function FieldTextAsWritten(key: string, typeName: string, tag: string): (t: string)
    ensures |t| >= 2 && t[0] == '\t' && t[|t| - 1] == '\n'
    ensures t[|t| - 2] == '"'  // the tag's closing quote, and no backtick after it
  {
    "\t" + key + " " + typeName + " `json:\"" + tag + "\"" + "\n"
  }

  /** The text of a line, with the field's struct tag closed by a second backtick. */
  function LineText(l: Line, key: string): (t: string)
    ensures |t| >= 2 && t[|t| - 1] == '\n'
    ensures l.Open? ==> |t| == |l.name| + 15 && t[..5] == "type " && t[5..|t| - 10] == l.name
                        && t[|t| - 10..] == " struct {\n"
    ensures l.Field? ==> t[0] == '\t' && t[|t| - 2] == '`'
    ensures l.Close? ==> t == "}\n"
  {
    match l
    case Open(name) => "type " + name + " struct {\n"
    case Field(_, typeName, tag) => "\t" + key + " " + typeName + " `json:\"" + tag + "\"`" + "\n"
    case Close => "}\n"
  }

  /** No backtick anywhere in the key, the type name or the tag. */
  predicate Plain(key: string, typeName: string, tag: string)
  {
    Occurrences('`', key) == 0 && Occurrences('`', typeName) == 0 && Occurrences('`', tag) == 0
  }

  /**
    As written, a field line holds a single backtick: the struct tag's raw string literal
    is never terminated, so the emitted declaration is not valid Go.
  */
  lemma FieldTagUnterminated(key: string, typeName: string, tag: string)
    requires Plain(key, typeName, tag)
    ensures Occurrences('`', FieldTextAsWritten(key, typeName, tag)) == 1
  {
    var open := " `json:\"";
    assert Occurrences('`', "\t") == 0;
    assert Occurrences('`', " ") == 0;
    assert Occurrences('`', open) == 1 by {
      assert open[1..] == "`json:\"";
      assert Occurrences('`', open[1..][1..]) == 0;
    }
    assert Occurrences('`', "\"") == 0;
    assert Occurrences('`', "\n") == 0;
    OccurrencesConcat('`', "\t", key);
    OccurrencesConcat('`', "\t" + key, " ");
    OccurrencesConcat('`', "\t" + key + " ", typeName);
    OccurrencesConcat('`', "\t" + key + " " + typeName, open);
    OccurrencesConcat('`', "\t" + key + " " + typeName + open, tag);
    OccurrencesConcat('`', "\t" + key + " " + typeName + open + tag, "\"");
    OccurrencesConcat('`', "\t" + key + " " + typeName + open + tag + "\"", "\n");
  }

  /** The `Diagnostic` field `message` shows it: the line ends without the closing backtick. */
  lemma MessageFieldUnterminated()
    ensures Occurrences('`', FieldTextAsWritten("Message", "string", "message,omitempty")) == 1
  {
    assert forall i | 0 <= i < |"Message"| :: "Message"[i] != '`';
    assert forall i | 0 <= i < |"string"| :: "string"[i] != '`';
    assert forall i | 0 <= i < |"message,omitempty"| :: "message,omitempty"[i] != '`';
    FieldTagUnterminated("Message", "string", "message,omitempty");
  }

  /**
    With the tag closed, a field line holds exactly two backticks: an opening and a
    closing one around the struct tag.
  */
  lemma FieldTagTerminated(key: string, l: Line)
    requires l.Field? && Plain(key, l.typeName, l.tag)
    ensures Occurrences('`', LineText(l, key)) == 2
  {
    var typeName, tag := l.typeName, l.tag;
    var open := " `json:\"";
    var close := "\"`";
    assert Occurrences('`', "\t") == 0;
    assert Occurrences('`', " ") == 0;
    assert Occurrences('`', open) == 1 by {
      assert open[1..] == "`json:\"";
      assert Occurrences('`', open[1..][1..]) == 0;
    }
    assert Occurrences('`', close) == 1 by {
      assert close[1..] == "`";
    }
    assert Occurrences('`', "\n") == 0;
    OccurrencesConcat('`', "\t", key);
    OccurrencesConcat('`', "\t" + key, " ");
    OccurrencesConcat('`', "\t" + key + " ", typeName);
    OccurrencesConcat('`', "\t" + key + " " + typeName, open);
    OccurrencesConcat('`', "\t" + key + " " + typeName + open, tag);
    OccurrencesConcat('`', "\t" + key + " " + typeName + open + tag, close);
    OccurrencesConcat('`', "\t" + key + " " + typeName + open + tag + close, "\n");
  }

  /** The closed line is the line as written with the missing backtick put back before the newline. */
  lemma ClosingBacktickRestored(key: string, l: Line)
    requires l.Field?
    ensures var written := FieldTextAsWritten(key, l.typeName, l.tag);
            LineText(l, key) == written[..|written| - 1] + "`\n"
  {
    var typeName, tag := l.typeName, l.tag;
    var prefix := "\t" + key + " " + typeName + " `json:\"" + tag + "\"";
    assert FieldTextAsWritten(key, typeName, tag) == prefix + "\n";
    assert (prefix + "\n")[..|prefix|] == prefix;
  }
}
