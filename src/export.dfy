/** ExportUtil.escapeCSV: the field cleaning applied before a value is written
    into the CSV export (the file writing itself is not modelled). */
module ExportUtil {
  import opened Wrappers

  /** String.replace of one character by a string: every occurrence, left to right. */
  function ReplaceChar(s: string, c: char, rep: string): string {
    if s == [] then [] else (if s[0] == c then rep else [s[0]]) + ReplaceChar(s[1..], c, rep)
  }

  lemma {:induction false} ReplaceCharAppend(a: string, b: string, c: char, rep: string)
    ensures ReplaceChar(a + b, c, rep) == ReplaceChar(a, c, rep) + ReplaceChar(b, c, rep)
  {
    if a != [] {
      assert (a + b)[0] == a[0] && (a + b)[1..] == a[1..] + b;
      ReplaceCharAppend(a[1..], b, c, rep);
    } else {
      assert a + b == b;
    }
  }

  /** escapeCSV: null becomes "", then quotes are doubled, line feeds become
      spaces and carriage returns are dropped, in three successive passes. */
  function EscapeCsv(value: Option<string>): string {
    match value
    case None => ""
    case Some(s) => ReplaceChar(ReplaceChar(ReplaceChar(s, '"', "\"\""), '\n', " "), '\r', "")
  }

  /** What one input character becomes. */
  function EscapeChar(x: char): string {
    if x == '"' then "\"\"" else if x == '\n' then " " else if x == '\r' then "" else [x]
  }

  /** The same cleaning done in a single pass, character by character. */
  function EscapeOnePass(s: string): string {
    if s == [] then [] else EscapeChar(s[0]) + EscapeOnePass(s[1..])
  }

  /** The three passes never interfere: together they are the single pass. */
  lemma {:induction false} EscapeCsvOnePass(s: string)
    ensures EscapeCsv(Some(s)) == EscapeOnePass(s)
  {
    if s != [] {
      var x, t := s[0], s[1..];
      var r1 := if x == '"' then "\"\"" else [x];
      assert ReplaceChar(s, '"', "\"\"") == r1 + ReplaceChar(t, '"', "\"\"");
      ReplaceCharAppend(r1, ReplaceChar(t, '"', "\"\""), '\n', " ");
      var r2 := ReplaceChar(r1, '\n', " ");
      ReplaceCharAppend(r2, ReplaceChar(ReplaceChar(t, '"', "\"\""), '\n', " "), '\r', "");
      EscapeCsvOnePass(t);
      if x == '"' {
        assert r2 == "\"\"" by {
          assert r1[1..] == ['"'];
        }
        assert ReplaceChar(r2, '\r', "") == "\"\"" by {
          assert r2[1..] == ['"'];
        }
      }
    }
  }

  /** Occurrences of c in s. */
  function Occurrences(s: string, c: char): nat {
    if s == [] then 0 else (if s[0] == c then 1 else 0) + Occurrences(s[1..], c)
  }

  /** The cleaned field holds no line break, has every quote doubled, and is
      longer by the quotes and shorter by the carriage returns. */
  lemma {:induction false} EscapeOnePassSpec(s: string)
    ensures var r := EscapeOnePass(s);
      && (forall i :: 0 <= i < |r| ==> r[i] != '\n' && r[i] != '\r')
      && Occurrences(r, '"') == 2 * Occurrences(s, '"')
      && |r| == |s| + Occurrences(s, '"') - Occurrences(s, '\r')
  {
    if s != [] {
      var e, t := EscapeChar(s[0]), EscapeOnePass(s[1..]);
      EscapeOnePassSpec(s[1..]);
      OccurrencesAppend(e, t, '"');
      if s[0] == '"' {
        assert e[1..] == ['"'];
      }
    }
  }

  lemma {:induction false} OccurrencesAppend(a: string, b: string, c: char)
    ensures Occurrences(a + b, c) == Occurrences(a, c) + Occurrences(b, c)
  {
    if a != [] {
      assert (a + b)[0] == a[0] && (a + b)[1..] == a[1..] + b;
      OccurrencesAppend(a[1..], b, c);
    } else {
      assert a + b == b;
    }
  }

  /** escapeCSV(null) is empty, and escapeCSV leaves no line break in a field. */
  lemma EscapeCsvSpec(value: Option<string>)
    ensures EscapeCsv(None) == ""
    ensures value.Some? ==> var r := EscapeCsv(value);
      && (forall i :: 0 <= i < |r| ==> r[i] != '\n' && r[i] != '\r')
      && Occurrences(r, '"') == 2 * Occurrences(value.value, '"')
      && |r| == |value.value| + Occurrences(value.value, '"') - Occurrences(value.value, '\r')
  {
    if value.Some? {
      EscapeCsvOnePass(value.value);
      EscapeOnePassSpec(value.value);
    }
  }
}
