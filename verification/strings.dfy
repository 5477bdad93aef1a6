/**
 * The pieces of Python's string and path handling that the program relies on:
 * `str.split`, `str.join`, substring and suffix tests, the text after the last
 * '.', `pathlib` path components, `str.title` and decimal rendering of counts.
 * Only ASCII case mapping is modelled.
 */
module Strings {
  import opened Common

  /** Index of the first occurrence of `c` in `s`. */
  function IndexOf(s: string, c: char): (k: nat)
    requires c in s
    ensures k < |s| && s[k] == c
    ensures c !in s[..k]
  {
    if s[0] == c then 0
    else
      var k := 1 + IndexOf(s[1..], c);
      assert s[..k] == [s[0]] + s[1..][..k - 1];
      k
  }

  /** Python's `s.split(sep)` for a one-character separator. */
  function Split(s: string, sep: char): (pieces: seq<string>)
    ensures |pieces| >= 1
    ensures forall i :: 0 <= i < |pieces| ==> sep !in pieces[i]
    decreases |s|
  {
    if sep !in s then [s]
    else
      var k := IndexOf(s, sep);
      [s[..k]] + Split(s[k + 1..], sep)
  }

  /** Python's `sep.join(pieces)`. */
  function Join(pieces: seq<string>, sep: char): string
  {
    if |pieces| == 0 then ""
    else if |pieces| == 1 then pieces[0]
    else pieces[0] + [sep] + Join(pieces[1..], sep)
  }

  /** A position holding `c` with no `c` before it is the first occurrence. */
  lemma IndexOfUnique(s: string, c: char, k: nat)
    requires k < |s| && s[k] == c && c !in s[..k]
    ensures c in s && IndexOf(s, c) == k
  {
    assert s[k] in s;
    var j := IndexOf(s, c);
    assert forall i :: 0 <= i < k ==> s[..k][i] == s[i];
    assert forall i :: 0 <= i < j ==> s[..j][i] == s[i];
  }

  /** Splitting at the first separator, wherever it is. */
  lemma SplitAt(s: string, sep: char, k: nat)
    requires k < |s| && s[k] == sep && sep !in s[..k]
    ensures Split(s, sep) == [s[..k]] + Split(s[k + 1..], sep)
  {
    IndexOfUnique(s, sep, k);
  }

  /** The first separator of `a` is also the first separator of `a + [sep] + b`. */
  lemma SplitInHead(a: string, b: string, sep: char, k: nat)
    requires k < |a| && a[k] == sep && sep !in a[..k]
    ensures Split(a + [sep] + b, sep) == [a[..k]] + Split(a[k + 1..] + [sep] + b, sep)
  {
    var s := a + [sep] + b;
    assert s[..k] == a[..k];
    assert s[k + 1..] == a[k + 1..] + [sep] + b;
    SplitAt(s, sep, k);
  }

  /** The inductive step of `SplitConcat`: the head's first piece goes in front. */
  lemma SplitConcatStep(a: string, b: string, sep: char, k: nat)
    requires k < |a| && a[k] == sep && sep !in a[..k]
    requires Split(a[k + 1..] + [sep] + b, sep) == Split(a[k + 1..], sep) + Split(b, sep)
    ensures Split(a + [sep] + b, sep) == Split(a, sep) + Split(b, sep)
  {
    var x, y := Split(a[k + 1..], sep), Split(b, sep);
    calc {
      Split(a + [sep] + b, sep);
      { SplitInHead(a, b, sep, k); }
      [a[..k]] + (x + y);
      ([a[..k]] + x) + y;
      { SplitAt(a, sep, k); }
      Split(a, sep) + y;
    }
  }

  /** A separator between two strings splits exactly there. */
  lemma {:induction false} SplitConcat(a: string, b: string, sep: char)
    ensures Split(a + [sep] + b, sep) == Split(a, sep) + Split(b, sep)
    decreases |a|
  {
    if sep !in a {
      SplitHead(a, b, sep);
      assert Split(a, sep) == [a];
    } else {
      var k := IndexOf(a, sep);
      SplitConcat(a[k + 1..], b, sep);
      SplitConcatStep(a, b, sep, k);
    }
  }

  /** Joining the pieces of a split gives back the original string. */
  lemma {:induction false} JoinSplit(s: string, sep: char)
    ensures Join(Split(s, sep), sep) == s
    decreases |s|
  {
    if sep in s {
      var k := IndexOf(s, sep);
      var rest := Split(s[k + 1..], sep);
      JoinSplit(s[k + 1..], sep);
      var pieces := [s[..k]] + rest;
      assert Split(s, sep) == pieces;
      assert |pieces| >= 2 && pieces[0] == s[..k] && pieces[1..] == rest;
      assert Join(pieces, sep) == s[..k] + [sep] + Join(rest, sep);
      assert s == s[..k] + [sep] + s[k + 1..];
    }
  }

  /** Splitting a join of separator-free pieces gives back the pieces. */
  lemma {:induction false} SplitJoin(pieces: seq<string>, sep: char)
    requires |pieces| >= 1
    requires forall i :: 0 <= i < |pieces| ==> sep !in pieces[i]
    ensures Split(Join(pieces, sep), sep) == pieces
    decreases |pieces|
  {
    if |pieces| > 1 {
      calc {
        Split(Join(pieces, sep), sep);
        Split(pieces[0] + [sep] + Join(pieces[1..], sep), sep);
        { SplitHead(pieces[0], Join(pieces[1..], sep), sep); }
        [pieces[0]] + Split(Join(pieces[1..], sep), sep);
        { SplitJoin(pieces[1..], sep); }
        [pieces[0]] + pieces[1..];
      }
    }
  }

  /** Python's `s.split('.')[-1]`: the text after the last '.', or all of `s` when it has none. */
  function Extension(s: string): (e: string)
    ensures '.' !in e
    ensures |e| <= |s|
  {
    var pieces := Split(s, '.');
    SplitLength(s, '.');
    Last(pieces)
  }

  /** Every piece of a split is no longer than the string. */
  lemma {:induction false} SplitLength(s: string, sep: char)
    ensures forall i :: 0 <= i < |Split(s, sep)| ==> |Split(s, sep)[i]| <= |s|
    decreases |s|
  {
    if sep in s {
      var k := IndexOf(s, sep);
      SplitLength(s[k + 1..], sep);
    }
  }

  /** A name written as `stem.ext` keeps `ext` as its extension. */
  lemma ExtensionOfDotted(stem: string, ext: string)
    requires '.' !in ext
    ensures Extension(stem + "." + ext) == ext
  {
    assert stem + "." + ext == stem + ['.'] + ext;
    SplitConcat(stem, ext, '.');
    assert Split(ext, '.') == [ext];
  }

  /** Python's `sub in s`. */
  predicate Contains(s: string, sub: string)
    decreases |s|
  {
    sub <= s || (|s| > 0 && Contains(s[1..], sub))
  }

  /** Python's `s.endswith(suffix)`. */
  predicate EndsWith(s: string, suffix: string)
  {
    |suffix| <= |s| && s[|s| - |suffix|..] == suffix
  }

  /** Python's `os.path.join(a, b)` for two components. */
  function PathJoin(a: string, b: string): string
  {
    if |b| > 0 && b[0] == '/' then b
    else if |a| == 0 || a[|a| - 1] == '/' then a + b
    else a + "/" + b
  }

  /** The pieces of a split that name a path component: empty and "." pieces are dropped, as `pathlib` does. */
  function NamedParts(pieces: seq<string>): (r: seq<string>)
    ensures forall i :: 0 <= i < |r| ==> r[i] in pieces && r[i] != "" && r[i] != "."
    ensures forall x :: x in pieces && x != "" && x != "." ==> x in r
  {
    if |pieces| == 0 then []
    else
      var rest := NamedParts(pieces[1..]);
      if pieces[0] == "" || pieces[0] == "." then rest else [pieces[0]] + rest
  }

  lemma {:induction false} NamedPartsConcat(a: seq<string>, b: seq<string>)
    ensures NamedParts(a + b) == NamedParts(a) + NamedParts(b)
    decreases |a|
  {
    if |a| > 0 {
      assert (a + b)[1..] == a[1..] + b;
      NamedPartsConcat(a[1..], b);
    } else {
      assert a + b == b;
    }
  }

  /** The components of a path, as `pathlib.PurePosixPath(p).parts` without the root. */
  function PathParts(p: string): seq<string>
  {
    NamedParts(Split(p, '/'))
  }

  /** `Path(p).parent.parent.name`: the component two levels above the last, or "" when there is none. */
  function GrandparentName(p: string): string
  {
    var parts := PathParts(p);
    if |parts| >= 3 then parts[|parts| - 3] else ""
  }

  /** Splitting at the first separator when the head holds none. */
  lemma SplitHead(head: string, rest: string, sep: char)
    requires sep !in head
    ensures Split(head + [sep] + rest, sep) == [head] + Split(rest, sep)
  {
    var s := head + [sep] + rest;
    assert s[..|head|] == head;
    assert s[|head| + 1..] == rest;
    SplitAt(s, sep, |head|);
  }

  /** The components of `<root>/<person>/<dir>/<file>` end with the three named ones. */
  lemma SplitDatasetFile(root: string, person: string, dir: string, file: string)
    requires '/' !in person && '/' !in dir && '/' !in file
    ensures Split(root + "/" + person + "/" + dir + "/" + file, '/') == Split(root, '/') + [person, dir, file]
  {
    var t2 := dir + ['/'] + file;
    var t1 := person + ['/'] + t2;
    assert root + "/" + person + "/" + dir + "/" + file == root + ['/'] + t1;
    calc {
      Split(root + ['/'] + t1, '/');
      { SplitConcat(root, t1, '/'); }
      Split(root, '/') + Split(t1, '/');
      { SplitHead(person, t2, '/'); }
      Split(root, '/') + ([person] + Split(t2, '/'));
      { SplitHead(dir, file, '/'); }
      Split(root, '/') + ([person] + ([dir] + Split(file, '/')));
      { assert Split(file, '/') == [file]; }
      Split(root, '/') + [person, dir, file];
    }
  }

  /** A file at `<root>/<person>/<dir>/<file>` has `person` as its grandparent directory name. */
  lemma GrandparentOfDatasetFile(root: string, person: string, dir: string, file: string)
    requires person != "" && person != "." && '/' !in person
    requires dir != "" && dir != "." && '/' !in dir
    requires file != "" && file != "." && '/' !in file
    ensures GrandparentName(root + "/" + person + "/" + dir + "/" + file) == person
  {
    var tail := [person, dir, file];
    SplitDatasetFile(root, person, dir, file);
    NamedPartsConcat(Split(root, '/'), tail);
    assert NamedParts(tail) == tail by {
      assert tail[1..] == [dir, file];
      assert tail[1..][1..] == [file];
      assert NamedParts([file]) == [file];
    }
  }

  predicate IsAsciiLetter(c: char)
  {
    ('A' <= c <= 'Z') || ('a' <= c <= 'z')
  }

  function ToUpper(c: char): char
  {
    if 'a' <= c <= 'z' then (c as int - 32) as char else c
  }

  function ToLower(c: char): char
  {
    if 'A' <= c <= 'Z' then (c as int + 32) as char else c
  }

  /**
   * Python's `str.title()` on ASCII text: a letter that follows a letter is
   * lower-cased, any other letter is upper-cased, other characters are kept.
   */
  function Title(s: string): (t: string)
    ensures |t| == |s|
  {
    TitleAfter(s, false)
  }

  function TitleAfter(s: string, afterLetter: bool): (t: string)
    ensures |t| == |s|
  {
    if |s| == 0 then ""
    else
      var c := s[0];
      if IsAsciiLetter(c) then [if afterLetter then ToLower(c) else ToUpper(c)] + TitleAfter(s[1..], true)
      else [c] + TitleAfter(s[1..], false)
  }

  /** A lower-case word after a letter is kept as it is. */
  lemma {:induction false} TitleAfterLetterKeepsLower(s: string)
    requires forall i :: 0 <= i < |s| ==> 'a' <= s[i] <= 'z'
    ensures TitleAfter(s, true) == s
    decreases |s|
  {
    if |s| > 0 {
      TitleAfterLetterKeepsLower(s[1..]);
      assert s == [s[0]] + s[1..];
    }
  }

  /** `str.title()` of a lower-case word capitalises its first letter only. */
  lemma TitleOfLowerWord(s: string)
    requires |s| > 0 && forall i :: 0 <= i < |s| ==> 'a' <= s[i] <= 'z'
    ensures Title(s) == [ToUpper(s[0])] + s[1..]
  {
    TitleAfterLetterKeepsLower(s[1..]);
  }

  predicate IsDigit(c: char)
  {
    '0' <= c <= '9'
  }

  /** Python's `str(n)` for a natural number. */
  function NatToString(n: nat): (s: string)
    ensures |s| >= 1
    ensures forall i :: 0 <= i < |s| ==> IsDigit(s[i])
    ensures ParseNat(s) == n
  {
    if n < 10 then [('0' as int + n) as char]
    else
      var init := NatToString(n / 10);
      var s := init + [('0' as int + n % 10) as char];
      assert s[..|s| - 1] == init;
      s
  }

  /** The value of a string of decimal digits, most significant first. */
  function ParseNat(s: string): nat
    requires forall i :: 0 <= i < |s| ==> IsDigit(s[i])
  {
    if |s| == 0 then 0
    else
      assert IsDigit(s[|s| - 1]);
      10 * ParseNat(s[..|s| - 1]) + (s[|s| - 1] as int - '0' as int)
  }
}
