/**
  The comma-list parsing of `saveCardEdits` (app.js:1125, 1132, 1139):
  `value.split(',').map(s => s.trim()).filter(s => s)`, used for the
  characters, locations and events of a chapter card. Also the JavaScript
  `String.prototype.trim` it relies on, which the focus handler of the
  autosave layer uses too.
*/
module Tags {

  /** The characters `trim` removes: ECMAScript WhiteSpace and LineTerminator. */
  predicate IsWhitespace(c: char)
  {
    || c == ' ' || c == '\t' || c == '\n' || c == '\r'
    || c == '\U{000B}' || c == '\U{000C}' || c == '\U{00A0}' || c == '\U{1680}'
    || ('\U{2000}' <= c <= '\U{200A}')
    || c == '\U{2028}' || c == '\U{2029}' || c == '\U{202F}' || c == '\U{205F}'
    || c == '\U{3000}' || c == '\U{FEFF}'
  }

  function TrimStart(s: string): (r: string)
    ensures |r| <= |s| && r == s[|s| - |r|..]
    ensures r == "" || !IsWhitespace(r[0])
    ensures forall k :: 0 <= k < |s| - |r| ==> IsWhitespace(s[k])
  {
    if |s| > 0 && IsWhitespace(s[0]) then TrimStart(s[1..]) else s
  }

  function TrimEnd(s: string): (r: string)
    ensures |r| <= |s| && r == s[..|r|]
    ensures r == "" || !IsWhitespace(r[|r| - 1])
    ensures forall k :: |r| <= k < |s| ==> IsWhitespace(s[k])
  {
    if |s| > 0 && IsWhitespace(s[|s| - 1]) then TrimEnd(s[..|s| - 1]) else s
  }

  /** `s.trim()`: `s` without its leading and trailing whitespace. */
  function Trim(s: string): (r: string)
    ensures r == "" || (!IsWhitespace(r[0]) && !IsWhitespace(r[|r| - 1]))
    // it is a stretch of `s`, beginning where the leading whitespace ends
    ensures |s| - |TrimStart(s)| + |r| <= |s| && r == s[|s| - |TrimStart(s)|..|s| - |TrimStart(s)| + |r|]
    ensures r == "" <==> forall k :: 0 <= k < |s| ==> IsWhitespace(s[k])
  {
    var front := TrimStart(s);
    var r := TrimEnd(front);
    r
  }

  /** `trim` only cuts: its result is the stretch of `s` left once the
      whitespace at both ends is removed, inner characters included. */
  lemma TrimCutsEnds(s: string)
    ensures exists i, j :: && 0 <= i <= j <= |s| && Trim(s) == s[i..j]
                           && (forall k :: 0 <= k < i ==> IsWhitespace(s[k]))
                           && (forall k :: j <= k < |s| ==> IsWhitespace(s[k]))
  {
    var i := |s| - |TrimStart(s)|;
    var j := i + |Trim(s)|;
    TrimTail(s);
    assert 0 <= i <= j <= |s| && Trim(s) == s[i..j];
  }

  /** What follows the trimmed text in `s` is whitespace. */
  lemma TrimTail(s: string)
    ensures forall k :: |s| - |TrimStart(s)| + |Trim(s)| <= k < |s| ==> IsWhitespace(s[k])
  {
    var front := TrimStart(s);
    var i := |s| - |front|;
    var r := Trim(s);
    assert r == TrimEnd(front);
    assert front == s[i..];
    forall k | i + |r| <= k < |s| ensures IsWhitespace(s[k]) {
      var m := k - i;
      assert |r| <= m < |front|;
      assert IsWhitespace(front[m]);
      assert s[k] == front[m];
    }
  }

  /** Trimming twice is trimming once. */
  lemma TrimIdempotent(s: string)
    ensures Trim(Trim(s)) == Trim(s)
  {
    var t := Trim(s);
    assert TrimStart(t) == t;
    assert TrimEnd(t) == t;
  }

  /** The number of occurrences of `c` in `s`. */
  function Count(s: string, c: char): nat
  {
    if |s| == 0 then 0 else (if s[0] == c then 1 else 0) + Count(s[1..], c)
  }

  /** `s.split(sep)` for a one-character separator: the pieces between separators,
      empty ones included, so there is always one more piece than separators. */
  function Split(s: string, sep: char): (parts: seq<string>)
    ensures |parts| == Count(s, sep) + 1
    ensures forall k :: 0 <= k < |parts| ==> sep !in parts[k]
  {
    if |s| == 0 then [""]
    else
      var rest := Split(s[1..], sep);
      if s[0] == sep then [""] + rest else [[s[0]] + rest[0]] + rest[1..]
  }

  /** `parts.join(sep)`, the inverse of `Split`. */
  function Join(parts: seq<string>, sep: char): string
    requires |parts| > 0
  {
    if |parts| == 1 then parts[0] else parts[0] + [sep] + Join(parts[1..], sep)
  }

  /** Splitting loses nothing: joining the pieces with the separator gives back the text. */
  lemma {:induction false} JoinSplit(s: string, sep: char)
    ensures Join(Split(s, sep), sep) == s
  {
    if |s| > 0 {
      var rest := Split(s[1..], sep);
      JoinSplit(s[1..], sep);
      if s[0] == sep {
        assert Split(s, sep)[1..] == rest;
      } else {
        var parts := Split(s, sep);
        if |rest| == 1 {
          assert parts == [[s[0]] + rest[0]];
        } else {
          assert parts[1..] == rest[1..];
          assert Join(rest, sep) == rest[0] + [sep] + Join(rest[1..], sep);
        }
      }
    }
  }

  /** And splitting a join of separator-free pieces gives back the pieces. */
  lemma {:induction false} SplitJoin(parts: seq<string>, sep: char)
    requires |parts| > 0
    requires forall k :: 0 <= k < |parts| ==> sep !in parts[k]
    ensures Split(Join(parts, sep), sep) == parts
  {
    if |parts| == 1 {
      SplitPiece(parts[0], sep);
    } else {
      SplitJoin(parts[1..], sep);
      SplitPrefix(parts[0], sep, Join(parts[1..], sep));
    }
  }

  /** A piece without separator splits to itself. */
  lemma {:induction false} SplitPiece(p: string, sep: char)
    requires sep !in p
    ensures Split(p, sep) == [p]
  {
    if |p| > 0 {
      SplitPiece(p[1..], sep);
      assert [p[0]] + p[1..] == p;
    }
  }

  /** Splitting a separator-free piece followed by a separator and more text. */
  lemma {:induction false} SplitPrefix(p: string, sep: char, tail: string)
    requires sep !in p
    ensures Split(p + [sep] + tail, sep) == [p] + Split(tail, sep)
  {
    var s := p + [sep] + tail;
    if |p| == 0 {
      assert s[1..] == tail;
    } else {
      assert s[1..] == p[1..] + [sep] + tail;
      SplitPrefix(p[1..], sep, tail);
      assert [p[0]] + p[1..] == p;
    }
  }

  /** `map(s => s.trim())`. */
  function TrimAll(parts: seq<string>): (r: seq<string>)
    ensures |r| == |parts|
    ensures forall k :: 0 <= k < |r| ==> r[k] == Trim(parts[k])
  {
    seq(|parts|, k requires 0 <= k < |parts| => Trim(parts[k]))
  }

  /** `filter(s => s)`: keeps the non-empty strings, in order. */
  function DropEmpty(parts: seq<string>): (r: seq<string>)
    ensures |r| <= |parts|
    ensures forall x :: x in r <==> x in parts && x != ""
    // every non-empty string is kept as often as it occurs
    ensures multiset(r) == multiset(parts)["" := 0]
  {
    assert |parts| > 0 ==> parts == [parts[0]] + parts[1..];
    if |parts| == 0 then []
    else if parts[0] == "" then DropEmpty(parts[1..])
    else [parts[0]] + DropEmpty(parts[1..])
  }

  /** `filter` keeps the order: dropping the empty strings of two lists one
      after the other is dropping them from their concatenation. */
  lemma {:induction false} DropEmptyAppend(a: seq<string>, b: seq<string>)
    ensures DropEmpty(a + b) == DropEmpty(a) + DropEmpty(b)
  {
    if |a| == 0 {
      assert a + b == b;
    } else {
      assert a == [a[0]] + a[1..];
      assert a + b == [a[0]] + (a[1..] + b);
      DropEmptyAppend(a[1..], b);
      DropEmptyCons(a[0], a[1..] + b);
      DropEmptyCons(a[0], a[1..]);
    }
  }

  /** The pieces, trimmed and without the empty ones, are non-empty, trimmed
      and as separator-free as the pieces were. */
  lemma TrimmedPieces(parts: seq<string>, sep: char)
    requires forall k :: 0 <= k < |parts| ==> sep !in parts[k]
    ensures forall t :: t in DropEmpty(TrimAll(parts)) ==> t != "" && Trim(t) == t && sep !in t
  {
    var trimmed := TrimAll(parts);
    forall t | t in DropEmpty(trimmed) ensures t != "" && Trim(t) == t && sep !in t {
      var j :| 0 <= j < |trimmed| && trimmed[j] == t;
      TrimIdempotent(parts[j]);
      SliceKeepsOut(parts[j], |parts[j]| - |TrimStart(parts[j])|, |parts[j]| - |TrimStart(parts[j])| + |t|, sep);
    }
  }

  /** A character absent from a string is absent from every stretch of it. */
  lemma SliceKeepsOut(p: string, i: int, j: int, c: char)
    requires 0 <= i <= j <= |p| && c !in p
    ensures c !in p[i..j]
  {
    forall k | 0 <= k < j - i ensures p[i..j][k] != c {
      assert p[i..j][k] == p[i + k];
    }
  }

  /** The tag list of one card field. */
  function ParseTags(s: string): (tags: seq<string>)
    // never more tags than comma-separated pieces
    ensures |tags| <= Count(s, ',') + 1
    // every tag is non-empty, already trimmed and comma-free
    ensures forall t :: t in tags ==> t != "" && Trim(t) == t && ',' !in t
    // and every piece with something besides whitespace gives its tag
    ensures forall p :: p in Split(s, ',') && Trim(p) != "" ==> Trim(p) in tags
    // each non-empty trimmed piece gives a tag, repeats included
    ensures multiset(tags) == multiset(TrimAll(Split(s, ',')))["" := 0]
  {
    var parts := Split(s, ',');
    var trimmed := TrimAll(parts);
    TrimmedPieces(parts, ',');
    assert forall p :: p in parts ==> Trim(p) in trimmed by {
      forall p | p in parts ensures Trim(p) in trimmed {
        var j :| 0 <= j < |parts| && parts[j] == p;
        assert trimmed[j] == Trim(p);
      }
    }
    DropEmpty(trimmed)
  }

  /** The tags of a single piece: its trimmed text, unless that is empty. */
  function PieceTags(p: string): seq<string>
  {
    if Trim(p) == "" then [] else [Trim(p)]
  }

  /** A text without commas gives at most the one tag of its trimmed text. */
  lemma ParseTagsPiece(p: string)
    requires ',' !in p
    ensures ParseTags(p) == PieceTags(p)
  {
    SplitPiece(p, ',');
    var t := Trim(p);
    assert TrimAll([p]) == [t];
    DropEmptyCons(t, []);
    assert [t] + [] == [t];
    assert DropEmpty([]) == [];
  }

  /** The tags of `p,tail` are the tags of `p` followed by the tags of `tail`:
      together with `ParseTagsPiece` this fixes the whole list, in order and
      with repeats, by induction on the commas. */
  lemma ParseTagsCons(p: string, tail: string)
    requires ',' !in p
    ensures ParseTags(p + [','] + tail) == PieceTags(p) + ParseTags(tail)
  {
    var rest := Split(tail, ',');
    SplitPrefix(p, ',', tail);
    TrimAllCons(p, rest);
    DropEmptyCons(Trim(p), TrimAll(rest));
  }

  /** Trimming a list that starts with `p`. */
  lemma TrimAllCons(p: string, rest: seq<string>)
    ensures TrimAll([p] + rest) == [Trim(p)] + TrimAll(rest)
  {
    assert ([p] + rest)[1..] == rest;
  }

  /** Dropping the empty strings of a list that starts with `t`. */
  lemma DropEmptyCons(t: string, rest: seq<string>)
    ensures DropEmpty([t] + rest) == (if t == "" then [] else [t]) + DropEmpty(rest)
  {
    assert ([t] + rest)[1..] == rest;
  }
}
