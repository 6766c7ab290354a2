/** The stderr splitter (bot/cli.py, `_StderrToLog`): text arrives in chunks, complete lines go to the log. */
module LineBuffer {
  /** What `str.split("\n")` returns: the lines ended by a newline, and what follows the last one. */
  function CompleteLines(text: string): seq<string> {
    if text == [] then []
    else
      var last := text[|text| - 1];
      var before := text[..|text| - 1];
      if last == '\n' then CompleteLines(before) + [Rest(before)] else CompleteLines(before)
  }

  function Rest(text: string): string {
    if text == [] then ""
    else if text[|text| - 1] == '\n' then ""
    else Rest(text[..|text| - 1]) + [text[|text| - 1]]
  }

  function Kept(lines: seq<string>, keep: string -> bool): seq<string> {
    if lines == [] then []
    else
      Kept(lines[..|lines| - 1], keep) + if keep(lines[|lines| - 1]) then [lines[|lines| - 1]] else []
  }

  function Joined(chunks: seq<string>): string {
    if chunks == [] then "" else Joined(chunks[..|chunks| - 1]) + chunks[|chunks| - 1]
  }

  class StderrToLog {
    /** Which lines are worth logging: not blank, and not already formatted as log lines. */
    const keep: string -> bool
    const isBlank: string -> bool
    var buf: string
    var logged: seq<string>

    constructor (keep: string -> bool, isBlank: string -> bool)
      ensures this.keep == keep && this.isBlank == isBlank && buf == "" && logged == []
    {
      this.keep, this.isBlank := keep, isBlank;
      buf, logged := "", [];
    }

    method Write(msg: string)
      modifies this
      ensures logged == old(logged) + Kept(CompleteLines(old(buf) + msg), keep)
      ensures buf == Rest(old(buf) + msg)
    {
      buf := buf + msg;
      NoNewlineNoLines(buf);
      if '\n' in buf {
        var lines := CompleteLines(buf);
        ghost var before := logged;
        for i := 0 to |lines|
          invariant buf == old(buf) + msg && logged == before + Kept(lines[..i], keep)
        {
          assert lines[..i + 1][..i] == lines[..i];
          if keep(lines[i]) {
            logged := logged + [lines[i]];
          }
        }
        assert lines[..|lines|] == lines;
        buf := Rest(buf);
      }
    }

    method Flush()
      modifies this
      ensures if isBlank(old(buf)) then logged == old(logged) && buf == old(buf)
              else logged == old(logged) + [old(buf)] && buf == ""
    {
      if !isBlank(buf) {
        logged := logged + [buf];
        buf := "";
      }
    }
  }

  lemma {:induction false} NoNewlineNoLines(text: string)
    ensures '\n' !in text ==> CompleteLines(text) == [] && Rest(text) == text
  {
    if text == [] {
    } else {
      NoNewlineNoLines(text[..|text| - 1]);
      assert text == text[..|text| - 1] + [text[|text| - 1]];
    }
  }

  /** Splitting after more text has arrived: the lines so far stay, the rest goes on where it stopped. */
  lemma {:induction false} SplitContinues(text: string, more: string)
    ensures CompleteLines(text + more) == CompleteLines(text) + CompleteLines(Rest(text) + more)
    ensures Rest(text + more) == Rest(Rest(text) + more)
  {
    hide CompleteLines, Rest;
    if more == [] {
      assert text + more == text && Rest(text) + more == Rest(text);
      RestHasNoNewline(text);
      NoNewlineNoLines(Rest(text));
    } else {
      var init, last, kept := more[..|more| - 1], more[|more| - 1], Rest(text);
      SplitContinues(text, init);
      assert text + more == (text + init) + [last] && kept + more == (kept + init) + [last];
      SplitOneMore(text + init, last);
      SplitOneMore(kept + init, last);
    }
  }

  lemma SplitOneMore(text: string, c: char)
    ensures CompleteLines(text + [c]) == CompleteLines(text) + if c == '\n' then [Rest(text)] else []
    ensures Rest(text + [c]) == if c == '\n' then "" else Rest(text) + [c]
  {
    assert (text + [c])[..|text|] == text;
    assert CompleteLines(text) + [] == CompleteLines(text);
  }

  lemma {:induction false} RestHasNoNewline(text: string)
    ensures '\n' !in Rest(text)
  {
    if text == [] {
    } else {
      RestHasNoNewline(text[..|text| - 1]);
    }
  }

  lemma {:induction false} KeptConcat(a: seq<string>, b: seq<string>, keep: string -> bool)
    ensures Kept(a + b, keep) == Kept(a, keep) + Kept(b, keep)
  {
    if b == [] {
      assert a + b == a;
    } else {
      assert (a + b)[..|a + b| - 1] == a + b[..|b| - 1];
      KeptConcat(a, b[..|b| - 1], keep);
    }
  }

  /** A line is logged as it is if it is worth it, else not at all; with `KeptConcat`, this is all there is to it. */
  lemma KeptOne(line: string, keep: string -> bool)
    ensures Kept([line], keep) == if keep(line) then [line] else []
  {
    assert [line][..0] == [];
    assert Kept([], keep) == [];
  }

  /** The log and buffer after writing the chunks one by one. */
  function AfterWrites(chunks: seq<string>, keep: string -> bool): (seq<string>, string) {
    if chunks == [] then ([], "")
    else
      var (logged, buf) := AfterWrites(chunks[..|chunks| - 1], keep);
      var text := buf + chunks[|chunks| - 1];
      (logged + Kept(CompleteLines(text), keep), Rest(text))
  }

  /** Only the concatenation matters: lines logged and text held back do not depend on the chunks. */
  lemma {:induction false} ChunkingIsIrrelevant(chunks: seq<string>, keep: string -> bool)
    ensures AfterWrites(chunks, keep) == (Kept(CompleteLines(Joined(chunks)), keep), Rest(Joined(chunks)))
  {
    if chunks == [] {
    } else {
      var init, last := chunks[..|chunks| - 1], chunks[|chunks| - 1];
      ChunkingIsIrrelevant(init, keep);
      SplitContinues(Joined(init), last);
      KeptConcat(CompleteLines(Joined(init)), CompleteLines(Rest(Joined(init)) + last), keep);
    }
  }

  /** Nothing is lost in splitting: the lines, each with its newline, and the rest make up the text. */
  function Unsplit(lines: seq<string>, rest: string): string {
    if lines == [] then rest else lines[0] + "\n" + Unsplit(lines[1..], rest)
  }

  lemma {:induction false} UnsplitSnoc(lines: seq<string>, line: string, rest: string)
    ensures Unsplit(lines + [line], rest) == Unsplit(lines, line + "\n" + rest)
  {
    if lines == [] {
      assert (lines + [line])[1..] == [];
    } else {
      assert (lines + [line])[1..] == lines[1..] + [line];
      UnsplitSnoc(lines[1..], line, rest);
    }
  }

  lemma {:induction false} UnsplitExtends(lines: seq<string>, rest: string, more: string)
    ensures Unsplit(lines, rest + more) == Unsplit(lines, rest) + more
  {
    if lines == [] {
    } else {
      UnsplitExtends(lines[1..], rest, more);
      var head := lines[0] + "\n";
      assert head + (Unsplit(lines[1..], rest) + more) == (head + Unsplit(lines[1..], rest)) + more;
    }
  }

  lemma {:induction false} SplitRoundTrip(text: string)
    ensures Unsplit(CompleteLines(text), Rest(text)) == text
    ensures forall l :: l in CompleteLines(text) ==> '\n' !in l
    ensures '\n' !in Rest(text)
  {
    if text == [] {
    } else {
      var init, last := text[..|text| - 1], text[|text| - 1];
      SplitRoundTrip(init);
      assert text == init + [last];
      RestHasNoNewline(init);
      RestHasNoNewline(text);
      UnsplitExtends(CompleteLines(init), Rest(init), [last]);
      if last == '\n' {
        UnsplitSnoc(CompleteLines(init), Rest(init), "");
        assert Rest(init) + "\n" + "" == Rest(init) + [last];
      }
    }
  }
}
