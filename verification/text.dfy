/** Models of the two functions of Go's `strings` package the tool relies on:
    `strings.Split` with a one-character separator and `strings.Fields`. */
module Text {

  /** `strings.Split(s, [sep])`: the pieces of `s` between occurrences of `sep`;
      there is always one more piece than there are separators. */
  function Split(s: string, sep: char): (parts: seq<string>)
    ensures |parts| >= 1
    ensures forall i | 0 <= i < |parts| :: sep !in parts[i]
    ensures |parts| == 1 <==> sep !in s
    decreases |s|
  {
    if s == [] then [""]
    else
      var rest := Split(s[1..], sep);
      if s[0] == sep then [""] + rest
      else [[s[0]] + rest[0]] + rest[1..]
  }

  /** `strings.Join(parts, [sep])`, the inverse of `Split`. */
  function Join(parts: seq<string>, sep: char): string
    requires |parts| >= 1
    decreases |parts|
  {
    if |parts| == 1 then parts[0] else parts[0] + [sep] + Join(parts[1..], sep)
  }

  /** Splitting and joining again gives back the original string. */
  lemma {:induction false} JoinSplit(s: string, sep: char)
    ensures Join(Split(s, sep), sep) == s
    decreases |s|
  {
    if s != [] {
      JoinSplit(s[1..], sep);
      var rest := Split(s[1..], sep);
      if s[0] == sep {
        assert Split(s, sep)[1..] == rest;
        assert s == [s[0]] + s[1..];
      } else {
        var parts := Split(s, sep);
        assert parts[1..] == rest[1..];
        if |rest| == 1 {
          assert parts == [[s[0]] + rest[0]];
          assert s == [s[0]] + s[1..];
        } else {
          assert Join(rest, sep) == rest[0] + [sep] + Join(rest[1..], sep);
          assert s == [s[0]] + s[1..];
        }
      }
    }
  }

  /** A string free of the separator is a single piece. */
  lemma {:induction false} SplitNoSeparator(s: string, sep: char)
    requires sep !in s
    ensures Split(s, sep) == [s]
    decreases |s|
  {
    if s != [] {
      SplitNoSeparator(s[1..], sep);
      assert [s[0]] + s[1..] == s;
    }
  }

  /** The piece before the first separator is split off and the rest is split on its own. */
  lemma {:induction false} SplitAtFirst(x: string, sep: char, y: string)
    requires sep !in x
    ensures Split(x + [sep] + y, sep) == [x] + Split(y, sep)
    decreases |x|
  {
    if x == [] {
      assert x + [sep] + y == [sep] + y;
      assert ([sep] + y)[1..] == y;
    } else {
      SplitAtFirst(x[1..], sep, y);
      assert (x + [sep] + y)[1..] == x[1..] + [sep] + y;
      assert [x[0]] + x[1..] == x;
    }
  }

  /** The characters Go's `unicode.IsSpace` accepts. */
  predicate IsSpace(c: char)
  {
    || c == ' ' || c == '\t' || c == '\n' || c == '\r'
    || c == '\U{0B}' || c == '\U{0C}' || c == '\U{85}' || c == '\U{A0}'
    || c == '\U{1680}' || ('\U{2000}' <= c <= '\U{200A}')
    || c == '\U{2028}' || c == '\U{2029}' || c == '\U{202F}' || c == '\U{205F}' || c == '\U{3000}'
  }

  predicate NoSpace(s: string)
  {
    forall i | 0 <= i < |s| :: !IsSpace(s[i])
  }

  predicate AllSpace(s: string)
  {
    forall i | 0 <= i < |s| :: IsSpace(s[i])
  }

  /** A token as `strings.Fields` produces it: non-empty and free of white space. */
  predicate IsToken(w: string)
  {
    w != [] && NoSpace(w)
  }

  /** Printable ASCII other than the space character. */
  predicate Visible(w: string)
  {
    forall i | 0 <= i < |w| :: '!' <= w[i] <= '~'
  }

  /** A non-empty word of visible characters is a token. */
  lemma VisibleIsToken(w: string)
    requires w != [] && Visible(w)
    ensures IsToken(w)
  {
  }

  /** Length of the run of non-space characters at the start of `s`. */
  function WordLength(s: string): (n: nat)
    requires s != [] && !IsSpace(s[0])
    ensures 1 <= n <= |s|
    ensures NoSpace(s[..n])
    ensures n == |s| || IsSpace(s[n])
    decreases |s|
  {
    if |s| == 1 || IsSpace(s[1]) then 1
    else
      var m := WordLength(s[1..]);
      assert s[..1 + m] == [s[0]] + s[1..][..m];
      1 + m
  }

  /** `strings.Fields(s)`: the maximal runs of non-space characters of `s`, in order. */
  function Fields(s: string): (fields: seq<string>)
    ensures forall i | 0 <= i < |fields| :: IsToken(fields[i])
    ensures fields == [] <==> AllSpace(s)
    ensures IsToken(s) ==> fields == [s]
    decreases |s|
  {
    if s == [] then []
    else if IsSpace(s[0]) then
      assert AllSpace(s) <==> AllSpace(s[1..]) by {
        assert forall i | 0 <= i < |s[1..]| :: s[1..][i] == s[i + 1];
      }
      Fields(s[1..])
    else
      var n := WordLength(s);
      assert IsToken(s) ==> n == |s| && s[..n] == s && s[n..] == [];
      [s[..n]] + Fields(s[n..])
  }

  /** Leading white space does not change the fields. */
  lemma {:induction false} FieldsSkipSpace(ws: string, x: string)
    requires AllSpace(ws)
    ensures Fields(ws + x) == Fields(x)
    decreases |ws|
  {
    if ws == [] {
      assert ws + x == x;
    } else {
      assert ws + x != [];
      assert (ws + x)[0] == ws[0];
      assert IsSpace(ws[0]);
      assert (ws + x)[1..] == ws[1..] + x;
      assert Fields(ws + x) == Fields(ws[1..] + x);
      assert AllSpace(ws[1..]) by {
        forall i | 0 <= i < |ws[1..]| ensures IsSpace(ws[1..][i]) {
          assert ws[1..][i] == ws[i + 1];
        }
      }
      FieldsSkipSpace(ws[1..], x);
    }
  }

  /** The word at the start of `w + rest` is exactly the token `w` when `rest` starts with white space. */
  lemma {:induction false} WordLengthToken(w: string, rest: string)
    requires IsToken(w) && rest != [] && IsSpace(rest[0])
    ensures (w + rest)[0] == w[0]
    ensures WordLength(w + rest) == |w|
    decreases |w|
  {
    var s := w + rest;
    if |w| == 1 {
      assert s[1] == rest[0];
    } else {
      assert s[1] == w[1];
      assert s[1..] == w[1..] + rest;
      assert IsToken(w[1..]) by {
        forall i | 0 <= i < |w[1..]| ensures !IsSpace(w[1..][i]) {
          assert w[1..][i] == w[i + 1];
        }
      }
      WordLengthToken(w[1..], rest);
    }
  }

  /** A token followed by white space is the first field. */
  lemma FieldsToken(w: string, ws: string, x: string)
    requires IsToken(w) && ws != [] && AllSpace(ws)
    ensures Fields(w + ws + x) == [w] + Fields(ws + x)
  {
    var s := w + ws + x;
    assert s[0] == w[0];
    WordLengthToken(w, ws + x);
    assert w + (ws + x) == s;
    var n := WordLength(s);
    assert s[..n] == w;
    assert s[n..] == ws + x;
  }

  /** A token followed by white space is the first field, and the white space is dropped. */
  lemma FieldsTokenSpace(w: string, ws: string, x: string)
    requires IsToken(w) && ws != [] && AllSpace(ws)
    ensures Fields(w + ws + x) == [w] + Fields(x)
  {
    FieldsToken(w, ws, x);
    FieldsSkipSpace(ws, x);
  }
}
