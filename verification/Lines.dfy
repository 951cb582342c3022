/** A text as its lines: every complete line ends with a newline, and an unfinished one may follow. */
module TextLines {
  import opened Prelude

  /** The text of complete lines. */
  function Joined(lines: seq<string>): string {
    if lines == [] then "" else lines[0] + "\n" + Joined(lines[1..])
  }

  predicate AreLines(lines: seq<string>) { forall i :: 0 <= i < |lines| ==> '\n' !in lines[i] }

  /** The complete lines of a text and what follows the last newline. */
  predicate Splits(text: string, lines: seq<string>, last: string) {
    AreLines(lines) && '\n' !in last && text == Joined(lines) + last
  }

  lemma {:induction false} JoinedAppend(a: seq<string>, b: seq<string>)
    ensures Joined(a + b) == Joined(a) + Joined(b)
  {
    if a == [] {
      assert a + b == b;
    } else {
      JoinedAppend(a[1..], b);
      assert (a + b)[1..] == a[1..] + b;
    }
  }

  /** Every text has its lines. */
  lemma {:induction false} LinesOf(text: string) returns (lines: seq<string>, last: string)
    ensures Splits(text, lines, last)
  {
    if text == "" {
      lines, last := [], "";
    } else {
      var init, c := text[..|text| - 1], text[|text| - 1];
      lines, last := LinesOf(init);
      assert text == Joined(lines) + (last + [c]);
      if c == '\n' {
        JoinedAppend(lines, [last]);
        OneJoined(last);
        lines, last := lines + [last], "";
        assert text == Joined(lines) + last;
      } else {
        last := last + [c];
      }
    }
  }

  lemma OneJoined(line: string)
    ensures Joined([line]) == line + "\n"
  {
    assert [line][1..] == [];
  }
}
