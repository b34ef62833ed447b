/** The pieces of Ruby's String class that order parsing relies on:
    `split(",")` (a literal one-character separator), `split(" ")`
    (awk-style splitting on runs of whitespace) and `downcase`. */
module RubyStrings {

  /** All fields between occurrences of `sep`, empty ones included.
      Ruby's `split` starts from this list and then drops trailing empties. */
  function Fields(s: string, sep: char): (r: seq<string>)
    ensures |r| >= 1
    ensures forall i :: 0 <= i < |r| ==> sep !in r[i]
    decreases |s|
  {
    if s == [] then [""]
    else
      var rest := Fields(s[1..], sep);
      if s[0] == sep then [""] + rest
      else [[s[0]] + rest[0]] + rest[1..]
  }

  /** `fs.join(sep)` */
  function Join(fs: seq<string>, sep: char): string
    requires |fs| >= 1
  {
    if |fs| == 1 then fs[0] else fs[0] + [sep] + Join(fs[1..], sep)
  }

  /** Joining the fields back together restores the string. */
  lemma {:induction false} JoinFields(s: string, sep: char)
    ensures Join(Fields(s, sep), sep) == s
    decreases |s|
  {
    if s != [] {
      var rest := Fields(s[1..], sep);
      JoinFields(s[1..], sep);
      if s[0] == sep {
        assert Fields(s, sep) == [""] + rest;
        assert ([""] + rest)[1..] == rest;
      } else {
        var r := [[s[0]] + rest[0]] + rest[1..];
        assert Fields(s, sep) == r;
        if |rest| == 1 {
          assert Join(r, sep) == [s[0]] + rest[0];
        } else {
          assert r[1..] == rest[1..];
          assert Join(rest, sep) == rest[0] + [sep] + Join(rest[1..], sep);
        }
        assert s == [s[0]] + s[1..];
      }
    }
  }

  /** A prefix without the separator glues onto the first field. */
  lemma {:induction false} FieldsOfPrefix(f: string, t: string, sep: char)
    requires sep !in f
    ensures Fields(f + t, sep) == [f + Fields(t, sep)[0]] + Fields(t, sep)[1..]
    decreases |f|
  {
    if f != [] {
      FieldsOfPrefix(f[1..], t, sep);
      var ft := Fields(t, sep);
      var rest := Fields(f[1..] + t, sep);
      assert (f + t)[1..] == f[1..] + t;
      assert (f + t)[0] == f[0] != sep;
      assert rest[0] == f[1..] + ft[0] && rest[1..] == ft[1..];
      assert Fields(f + t, sep) == [[f[0]] + rest[0]] + rest[1..];
      assert [f[0]] + (f[1..] + ft[0]) == f + ft[0];
    } else {
      var ft := Fields(t, sep);
      assert f + t == t && f + ft[0] == ft[0];
      assert ft == [ft[0]] + ft[1..];
    }
  }

  /** Splitting a join of separator-free fields gives the fields back. */
  lemma {:induction false} FieldsJoin(fs: seq<string>, sep: char)
    requires |fs| >= 1
    requires forall i :: 0 <= i < |fs| ==> sep !in fs[i]
    ensures Fields(Join(fs, sep), sep) == fs
    decreases |fs|
  {
    FieldsOfPrefix(fs[0], [], sep);
    assert fs[0] + [] == fs[0];
    if |fs| > 1 {
      FieldsJoin(fs[1..], sep);
      var t := Join(fs[1..], sep);
      FieldsOfPrefix(fs[0], [sep] + t, sep);
      assert fs[0] + [sep] + t == fs[0] + ([sep] + t);
      assert ([sep] + t)[1..] == t;
      assert Fields([sep] + t, sep) == [""] + Fields(t, sep);
      assert fs == [fs[0]] + fs[1..];
    }
  }

  /** Ruby removes the empty fields at the end of a split. */
  function DropTrailingEmpty(fs: seq<string>): (r: seq<string>)
    ensures |r| <= |fs| && r == fs[..|r|]
    ensures r == [] || r[|r| - 1] != ""
    ensures forall i :: |r| <= i < |fs| ==> fs[i] == ""
  {
    if fs == [] || fs[|fs| - 1] != "" then fs else DropTrailingEmpty(fs[..|fs| - 1])
  }

  /** `s.split(sep)` for a one-character string separator. */
  function Split(s: string, sep: char): seq<string>
  {
    DropTrailingEmpty(Fields(s, sep))
  }

  /** The whitespace that `split(" ")` splits on. */
  predicate IsSpace(c: char)
  {
    c == ' ' || c == '\t' || c == '\n' || c == '\U{B}' || c == '\U{C}' || c == '\r'
  }

  predicate IsWord(w: string)
  {
    w != [] && forall j :: 0 <= j < |w| ==> !IsSpace(w[j])
  }

  /** The longest prefix of `s` free of whitespace. */
  function LeadingWord(s: string): (w: string)
    ensures |w| <= |s| && w == s[..|w|]
    ensures forall j :: 0 <= j < |w| ==> !IsSpace(w[j])
    ensures |w| == |s| || IsSpace(s[|w|])
  {
    if s == [] || IsSpace(s[0]) then [] else [s[0]] + LeadingWord(s[1..])
  }

  /** `s.split(" ")`: leading whitespace is ignored and every run of
      whitespace separates two words, so no word is empty. */
  function Words(s: string): (r: seq<string>)
    ensures forall i :: 0 <= i < |r| ==> IsWord(r[i])
    decreases |s|
  {
    if s == [] then []
    else if IsSpace(s[0]) then Words(s[1..])
    else
      var w := LeadingWord(s);
      [w] + Words(s[|w|..])
  }

  /** Whitespace in front of a string adds no word to its split. */
  lemma WordsSkipsSpace(c: char, s: string)
    requires IsSpace(c)
    ensures Words([c] + s) == Words(s)
  {
    assert ([c] + s)[0] == c && ([c] + s)[1..] == s;
  }

  /** `ws.join(" ")` */
  function Unwords(ws: seq<string>): string
  {
    if ws == [] then "" else if |ws| == 1 then ws[0] else ws[0] + " " + Unwords(ws[1..])
  }

  lemma {:induction false} LeadingWordOf(w: string, t: string)
    requires forall j :: 0 <= j < |w| ==> !IsSpace(w[j])
    requires t == [] || IsSpace(t[0])
    ensures LeadingWord(w + t) == w
    decreases |w|
  {
    if w == [] {
      assert w + t == t;
    } else {
      assert (w + t)[1..] == w[1..] + t;
      LeadingWordOf(w[1..], t);
      assert w == [w[0]] + w[1..];
    }
  }

  /** Splitting a space-joined list of words gives the words back. */
  lemma {:induction false} WordsUnwords(ws: seq<string>)
    requires forall i :: 0 <= i < |ws| ==> IsWord(ws[i])
    ensures Words(Unwords(ws)) == ws
    decreases |ws|
  {
    if |ws| == 1 {
      LeadingWordOf(ws[0], []);
      assert ws[0] + [] == ws[0];
      assert ws[0][|ws[0]|..] == [];
    } else if |ws| > 1 {
      var w, t := ws[0], Unwords(ws[1..]);
      var s := w + " " + t;
      LeadingWordOf(w, " " + t);
      assert s == w + (" " + t);
      assert s[|w|..] == " " + t;
      assert (" " + t)[1..] == t;
      WordsUnwords(ws[1..]);
      assert ws == [w] + ws[1..];
    }
  }

  function DowncaseChar(c: char): char
  {
    if 'A' <= c <= 'Z' then (c as int + 32) as char else c
  }

  /** `s.downcase`, restricted to the ASCII letters. */
  function Downcase(s: string): string
  {
    seq(|s|, i requires 0 <= i < |s| => DowncaseChar(s[i]))
  }
}
