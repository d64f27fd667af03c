/** The JavaScript string built-ins both programs rely on: `trim`, the regular
    expression class `\s`, `toLowerCase`, `includes`, `split`, `join` and the
    UTF-16 `length`. Strings are sequences of Unicode scalar values. */
module JsText {

  /** The JavaScript WhiteSpace and LineTerminator characters: the set that
      `String.prototype.trim` removes and that `\s` matches in a regular
      expression. The set is finite and written out in full. */
  predicate IsSpace(c: char)
  {
    || c == '\t' || c == '\n' || c == '\U{000B}' || c == '\U{000C}' || c == '\r'
    || c == ' ' || c == '\U{00A0}' || c == '\U{1680}'
    || ('\U{2000}' <= c <= '\U{200A}')
    || c == '\U{2028}' || c == '\U{2029}' || c == '\U{202F}' || c == '\U{205F}'
    || c == '\U{3000}' || c == '\U{FEFF}'
  }

  predicate AllSpace(s: string)
  {
    forall i :: 0 <= i < |s| ==> IsSpace(s[i])
  }

  /** Removes the leading whitespace: what is left is a suffix of `s` that does
      not start with whitespace, and everything removed was whitespace. */
  function TrimStart(s: string): (r: string)
    ensures |r| <= |s| && r == s[|s| - |r|..]
    ensures r != [] ==> !IsSpace(r[0])
    ensures AllSpace(s[..|s| - |r|])
  {
    if s != [] && IsSpace(s[0]) then
      var r := TrimStart(s[1..]);
      var n := |s| - |r|;
      assert s[1..][n - 1..] == s[n..];
      SpacesExtend(s, n);
      r
    else s
  }

  /** `trim` drops a leading whitespace character first. */
  lemma TrimDropFront(s: string)
    requires s != [] && IsSpace(s[0])
    ensures Trim(s) == Trim(s[1..])
  {
  }

  /** With no leading whitespace, `trim` drops a trailing whitespace
      character. */
  lemma TrimDropBack(s: string)
    requires s != [] && !IsSpace(s[0]) && IsSpace(s[|s| - 1])
    ensures Trim(s) == Trim(s[..|s| - 1])
  {
  }

  /** A leading whitespace character extends a whitespace prefix. */
  lemma SpacesExtend(s: string, n: nat)
    requires 0 < n <= |s| && IsSpace(s[0]) && AllSpace(s[1..][..n - 1])
    ensures AllSpace(s[..n])
  {
    assert forall i :: 0 < i < n ==> s[..n][i] == s[1..][..n - 1][i - 1];
  }

  /** `String.prototype.trim`: leading and trailing whitespace removed. The
      result neither starts nor ends with whitespace, and it is empty exactly
      when `s` is all whitespace. */
  function Trim(s: string): (r: string)
    ensures r != [] ==> !IsSpace(r[0]) && !IsSpace(r[|r| - 1])
    ensures r == [] <==> AllSpace(s)
    decreases |s|
  {
    if s != [] && IsSpace(s[0]) then
      assert AllSpace(s) <==> AllSpace(s[1..]) by {
        assert forall i :: 0 < i < |s| ==> s[i] == s[1..][i - 1];
      }
      Trim(s[1..])
    else if s != [] && IsSpace(s[|s| - 1]) then
      assert AllSpace(s) <==> AllSpace(s[..|s| - 1]) by {
        assert forall i :: 0 <= i < |s| - 1 ==> s[i] == s[..|s| - 1][i];
      }
      Trim(s[..|s| - 1])
    else s
  }

  /** `s[k..k + n]` is what is left after removing whitespace before `k` and
      from `k + n` on. */
  predicate TrimmedAt(s: string, k: nat, n: nat)
  {
    k + n <= |s| && AllSpace(s[..k]) && AllSpace(s[k + n..])
  }

  /** `r` is the slice of `s` starting at `k`, with only whitespace around
      it. */
  predicate SliceOf(s: string, k: nat, r: string)
  {
    TrimmedAt(s, k, |r|) && r == s[k..k + |r|]
  }

  /** What `Trim` keeps is a slice of `s`, starting at `k`, and everything it
      removes on either side is whitespace. */
  lemma {:induction false} TrimSlice(s: string) returns (k: nat)
    ensures SliceOf(s, k, Trim(s))
    decreases |s|, 1
  {
    if s != [] && IsSpace(s[0]) {
      k := TrimSliceFront(s);
    } else if s != [] && IsSpace(s[|s| - 1]) {
      k := TrimSliceBack(s);
    } else {
      k := 0;
      TrimUntouched(s);
      assert s[..0] == [] && s[|s|..] == [] && s[0..|s|] == s;
    }
  }

  lemma {:induction false} TrimSliceFront(s: string) returns (k: nat)
    requires s != [] && IsSpace(s[0])
    ensures SliceOf(s, k, Trim(s))
    decreases |s|, 0
  {
    var t := s[1..];
    var k' := TrimSlice(t);
    var r := Trim(t);
    assert Trim(s) == r;
    k := k' + 1;
    assert s[..k] == [s[0]] + t[..k'];
    AllSpaceCons(s[0], t[..k']);
    TailSlice(s, k', k' + |r|);
    assert s[k + |r|..] == t[k' + |r|..];
  }

  lemma TailSlice(s: string, a: nat, b: nat)
    requires a <= b < |s|
    ensures s[1..][a..b] == s[a + 1..b + 1]
  {
    forall i | 0 <= i < b - a
      ensures s[1..][a..b][i] == s[a + 1..b + 1][i]
    {
    }
  }

  lemma {:induction false} TrimSliceBack(s: string) returns (k: nat)
    requires s != [] && !IsSpace(s[0]) && IsSpace(s[|s| - 1])
    ensures SliceOf(s, k, Trim(s))
    decreases |s|, 0
  {
    var p := s[..|s| - 1];
    k := TrimSlice(p);
    var r := Trim(p);
    assert Trim(s) == r;
    assert s[..k] == p[..k];
    assert s[k..k + |r|] == p[k..k + |r|];
    assert s[k + |r|..] == p[k + |r|..] + [s[|s| - 1]];
    AllSpaceSnoc(p[k + |r|..], s[|s| - 1]);
  }

  lemma AllSpaceCons(c: char, a: string)
    requires IsSpace(c) && AllSpace(a)
    ensures AllSpace([c] + a)
  {
    assert forall i :: 0 < i < |[c] + a| ==> ([c] + a)[i] == a[i - 1];
  }

  lemma AllSpaceSnoc(a: string, c: char)
    requires AllSpace(a) && IsSpace(c)
    ensures AllSpace(a + [c])
  {
    assert forall i :: 0 <= i < |a| ==> (a + [c])[i] == a[i];
  }

  /** Trimming twice gives the same result as trimming once. */
  lemma TrimIdempotent(s: string)
    ensures Trim(Trim(s)) == Trim(s)
  {
  }

  /** Text that does not start with whitespace has nothing to drop at the
      front. */
  lemma TrimStartWord(s: string)
    requires s != [] && !IsSpace(s[0])
    ensures TrimStart(s) == s
  {
  }

  /** Text that neither starts nor ends with whitespace is left as it is. */
  lemma TrimUntouched(s: string)
    requires s == [] || (!IsSpace(s[0]) && !IsSpace(s[|s| - 1]))
    ensures Trim(s) == s && TrimStart(s) == s
  {
  }

  /** The capitals the model lowers: ASCII `A` to `Z` and the Latin-1
      capitals U+00C0 to U+00DE, except the multiplication sign U+00D7. */
  predicate IsCapital(c: char)
  {
    'A' <= c <= 'Z' || ('\U{00C0}' <= c <= '\U{00DE}' && c != '\U{00D7}')
  }

  /** `toLowerCase` on a single character: a capital maps to the small
      letter 32 code points above it, and every other character is kept.
      The result is never a capital. */
  function LowerChar(c: char): (l: char)
    ensures !IsCapital(l)
    ensures !IsCapital(c) ==> l == c
    ensures IsCapital(c) ==> l as int == c as int + 32
  {
    if IsCapital(c) then (c as int + 32) as char else c
  }

  /** `String.prototype.toLowerCase`, character by character: the result
      holds no capital, and every character that is not a capital (the
      whitespace in particular) stays where it was. */
  function ToLower(s: string): (r: string)
    ensures |r| == |s|
    ensures forall i :: 0 <= i < |s| ==> r[i] == LowerChar(s[i])
    ensures forall i :: 0 <= i < |r| ==> !IsCapital(r[i])
  {
    seq(|s|, i requires 0 <= i < |s| => LowerChar(s[i]))
  }

  /** Text without capitals is its own lower case. */
  lemma ToLowerKeepsSmall(s: string)
    requires forall i :: 0 <= i < |s| ==> !IsCapital(s[i])
    ensures ToLower(s) == s
  {
  }

  /** Lowering twice is lowering once. */
  lemma ToLowerIdempotent(s: string)
    ensures ToLower(ToLower(s)) == ToLower(s)
  {
    ToLowerKeepsSmall(ToLower(s));
  }

  /** Lowering touches no whitespace, so it commutes with `trim`. */
  lemma {:induction false} TrimToLower(s: string)
    ensures Trim(ToLower(s)) == ToLower(Trim(s))
    decreases |s|, 1
  {
    var l := ToLower(s);
    if s == [] {
    } else if IsSpace(s[0]) {
      TrimToLowerFront(s);
    } else if IsSpace(s[|s| - 1]) {
      TrimToLowerBack(s);
    } else {
      assert l[0] == LowerChar(s[0]) && l[|s| - 1] == LowerChar(s[|s| - 1]);
      TrimUntouched(s);
      TrimUntouched(l);
    }
  }

  lemma {:induction false} TrimToLowerFront(s: string)
    requires s != [] && IsSpace(s[0])
    ensures Trim(ToLower(s)) == ToLower(Trim(s))
    decreases |s|, 0
  {
    var l := ToLower(s);
    assert l[0] == s[0];
    TrimDropFront(l);
    TrimDropFront(s);
    LowerTail(s);
    TrimToLower(s[1..]);
  }

  lemma {:induction false} TrimToLowerBack(s: string)
    requires s != [] && !IsSpace(s[0]) && IsSpace(s[|s| - 1])
    ensures Trim(ToLower(s)) == ToLower(Trim(s))
    decreases |s|, 0
  {
    var l := ToLower(s);
    assert l[0] == LowerChar(s[0]) && l[|s| - 1] == s[|s| - 1];
    TrimDropBack(l);
    TrimDropBack(s);
    LowerInit(s);
    TrimToLower(s[..|s| - 1]);
  }

  lemma LowerTail(s: string)
    requires s != []
    ensures ToLower(s)[1..] == ToLower(s[1..])
  {
  }

  lemma LowerInit(s: string)
    requires s != []
    ensures ToLower(s)[..|s| - 1] == ToLower(s[..|s| - 1])
  {
  }

  /** `sub` occurs in `s` starting at index `i`. */
  predicate OccursAt(s: string, sub: string, i: nat)
  {
    i + |sub| <= |s| && s[i..i + |sub|] == sub
  }

  /** `String.prototype.includes`: `sub` occurs in `s` at some position. */
  function Contains(s: string, sub: string): (b: bool)
    ensures b <==> exists i: nat :: OccursAt(s, sub, i)
    decreases |s|
  {
    if |sub| > |s| then false
    else if s[..|sub|] == sub then assert OccursAt(s, sub, 0); true
    else
      var b := Contains(s[1..], sub);
      assert b ==> exists i: nat :: OccursAt(s, sub, i) by {
        if b {
          var i: nat :| OccursAt(s[1..], sub, i);
          assert s[i + 1..i + 1 + |sub|] == s[1..][i..i + |sub|];
          assert OccursAt(s, sub, i + 1);
        }
      }
      assert (exists i: nat :: OccursAt(s, sub, i)) ==> b by {
        if i: nat :| OccursAt(s, sub, i) {
          assert i != 0;
          assert s[1..][i - 1..i - 1 + |sub|] == s[i..i + |sub|];
          assert OccursAt(s[1..], sub, i - 1);
        }
      }
      b
  }

  /** Lowering `s` keeps every occurrence of a text without capitals:
      `includes` on the lower case finds whatever it finds in `s`. */
  lemma LowerKeepsContains(s: string, sub: string)
    requires forall k :: 0 <= k < |sub| ==> !IsCapital(sub[k])
    ensures Contains(s, sub) ==> Contains(ToLower(s), sub)
  {
    if Contains(s, sub) {
      var i: nat :| OccursAt(s, sub, i);
      assert ToLower(s)[i..i + |sub|] == sub;
      assert OccursAt(ToLower(s), sub, i);
    }
  }

  /** The lengths of the parts, added up. */
  function TotalLength(parts: seq<string>): nat
  {
    if parts == [] then 0 else |parts[0]| + TotalLength(parts[1..])
  }

  /** `Array.prototype.join`: the parts with `sep` between consecutive ones.
      The result starts with the first part, and its length is that of the
      parts plus one separator per gap. */
  function Join(parts: seq<string>, sep: string): (r: string)
    ensures parts == [] ==> r == []
    ensures parts != [] ==> |r| == TotalLength(parts) + (|parts| - 1) * |sep|
    ensures parts != [] ==> r[..|parts[0]|] == parts[0]
  {
    if parts == [] then []
    else if |parts| == 1 then parts[0]
    else parts[0] + sep + Join(parts[1..], sep)
  }

  /** `String.prototype.split` on a one-character separator: the maximal
      pieces of `s` between occurrences of `sep`. There is always at least one
      piece (the empty string splits into `[""]`) and no piece holds `sep`. */
  function Split(s: string, sep: char): (parts: seq<string>)
    ensures |parts| >= 1
    ensures forall p :: p in parts ==> sep !in p
  {
    if s == [] then [[]]
    else
      var rest := Split(s[1..], sep);
      if s[0] == sep then [[]] + rest
      else [[s[0]] + rest[0]] + rest[1..]
  }

  /** Joining the pieces of a split with the separator restores the string. */
  lemma {:induction false} JoinSplit(s: string, sep: char)
    ensures Join(Split(s, sep), [sep]) == s
  {
    if s != [] {
      var rest := Split(s[1..], sep);
      JoinSplit(s[1..], sep);
      if s[0] != sep {
        assert Split(s, sep) == [[s[0]] + rest[0]] + rest[1..];
        JoinExtendFirst(s[0], rest, [sep]);
      } else {
        assert Split(s, sep) == [[]] + rest;
        JoinEmptyFirst(rest, [sep]);
      }
      assert [s[0]] + s[1..] == s;
    }
  }

  /** Putting a character in front of the first part puts it in front of
      the join. */
  lemma JoinExtendFirst(c: char, parts: seq<string>, sep: string)
    requires parts != []
    ensures Join([[c] + parts[0]] + parts[1..], sep) == [c] + Join(parts, sep)
  {
    var longer := [[c] + parts[0]] + parts[1..];
    assert longer[0] == [c] + parts[0] && longer[1..] == parts[1..];
  }

  /** An empty first part leaves just the separator in front of the rest. */
  lemma JoinEmptyFirst(parts: seq<string>, sep: string)
    requires parts != []
    ensures Join([[]] + parts, sep) == sep + Join(parts, sep)
  {
    var longer := [[]] + parts;
    assert longer[0] == [] && longer[1..] == parts;
  }

  /** Splitting a join of separator-free parts gives the parts back. */
  lemma {:induction false} SplitJoin(parts: seq<string>, sep: char)
    requires |parts| >= 1
    requires forall p :: p in parts ==> sep !in p
    ensures Split(Join(parts, [sep]), sep) == parts
    decreases |parts|, |parts[0]|
  {
    var p := parts[0];
    if |parts| == 1 {
      SplitSeparatorFree(p, sep);
    } else if p == [] {
      var tail := parts[1..];
      assert forall q :: q in tail ==> q in parts;
      SplitJoin(tail, sep);
      assert parts == [[]] + tail;
      JoinEmptyFirst(tail, [sep]);
      SplitCons(sep, Join(tail, [sep]), sep);
    } else {
      var shorter := [p[1..]] + parts[1..];
      SeparatorFreeTail(parts, sep);
      SplitJoin(shorter, sep);
      assert shorter[0] == p[1..] && shorter[1..] == parts[1..];
      assert [p[0]] + p[1..] == p;
      assert parts == [[p[0]] + shorter[0]] + shorter[1..];
      JoinExtendFirst(p[0], shorter, [sep]);
      SplitCons(p[0], Join(shorter, [sep]), sep);
    }
  }

  /** Dropping the first character of the first part keeps every part free
      of the separator. */
  lemma SeparatorFreeTail(parts: seq<string>, sep: char)
    requires |parts| >= 1 && parts[0] != []
    requires forall p :: p in parts ==> sep !in p
    ensures parts[0][0] != sep
    ensures forall q :: q in [parts[0][1..]] + parts[1..] ==> sep !in q
  {
    var p := parts[0];
    assert p[0] in p;
    forall q | q in [p[1..]] + parts[1..] ensures sep !in q {
      if q == p[1..] {
        forall k | 0 <= k < |q| ensures q[k] != sep {
          assert q[k] == p[k + 1] && p[k + 1] in p;
        }
      } else {
        assert q in parts[1..];
        var j :| 0 <= j < |parts| - 1 && parts[1..][j] == q;
        assert parts[j + 1] in parts;
      }
    }
  }

  /** `Split` reads its input one character at a time. */
  lemma SplitCons(c: char, t: string, sep: char)
    ensures Split([c] + t, sep)
      == if c == sep then [[]] + Split(t, sep) else [[c] + Split(t, sep)[0]] + Split(t, sep)[1..]
  {
    assert ([c] + t)[0] == c && ([c] + t)[1..] == t;
  }

  lemma {:induction false} SplitSeparatorFree(p: string, sep: char)
    requires sep !in p
    ensures Split(p, sep) == [p]
  {
    if p != [] {
      SplitSeparatorFree(p[1..], sep);
      assert [p[0]] + p[1..] == p;
    }
  }

  /** A join is non-empty when its first part is. */
  lemma {:induction false} JoinNonEmpty(parts: seq<string>, sep: string)
    requires parts != [] && parts[0] != []
    ensures Join(parts, sep) != []
  {
    if |parts| > 1 {
      assert Join(parts, sep)[..|parts[0]|] == parts[0];
    }
  }

  /** No two whitespace characters stand next to each other. */
  predicate NoSpaceRun(s: string)
  {
    forall i :: 0 < i < |s| ==> !(IsSpace(s[i - 1]) && IsSpace(s[i]))
  }

  /** The only whitespace character in `s` is the plain space. */
  predicate OnlyBlanks(s: string)
  {
    forall i :: 0 <= i < |s| && IsSpace(s[i]) ==> s[i] == ' '
  }

  /** The non-whitespace characters of `s`, in order. */
  function NonSpace(s: string): string
  {
    if s == [] then [] else (if IsSpace(s[0]) then [] else [s[0]]) + NonSpace(s[1..])
  }

  lemma {:induction false} NonSpaceAppend(a: string, b: string)
    ensures NonSpace(a + b) == NonSpace(a) + NonSpace(b)
  {
    if a != [] {
      assert (a + b)[0] == a[0];
      assert (a + b)[1..] == a[1..] + b;
      NonSpaceAppend(a[1..], b);
    } else {
      assert a + b == b;
    }
  }

  lemma {:induction false} NonSpaceOfSpaces(a: string)
    requires AllSpace(a)
    ensures NonSpace(a) == []
  {
    if a != [] {
      NonSpaceOfSpaces(a[1..]);
    }
  }

  /** A text without non-whitespace characters that is not empty starts
      with whitespace. */
  lemma NonSpaceEmpty(s: string)
    ensures NonSpace(s) == [] && s != [] ==> IsSpace(s[0])
  {
    if s != [] && !IsSpace(s[0]) {
      assert NonSpace(s) == [s[0]] + NonSpace(s[1..]);
    }
  }

  /** Dropping leading whitespace keeps the non-whitespace characters. */
  lemma NonSpaceTrimStart(s: string)
    ensures NonSpace(TrimStart(s)) == NonSpace(s)
  {
    var t := TrimStart(s);
    var p := s[..|s| - |t|];
    assert s == p + t;
    NonSpaceOfSpaces(p);
    NonSpaceAppend(p, t);
  }

  /** `Trim` keeps the non-whitespace characters, and a text without runs of
      whitespace, or whose only whitespace is the plain space, stays so. */
  lemma TrimKeepsShape(s: string)
    ensures NonSpace(Trim(s)) == NonSpace(s)
    ensures NoSpaceRun(s) ==> NoSpaceRun(Trim(s))
    ensures OnlyBlanks(s) ==> OnlyBlanks(Trim(s))
  {
    var k := TrimSlice(s);
    SliceShape(s, k, Trim(s));
  }

  /** The same facts for any slice of `s` with only whitespace around it. */
  lemma SliceShape(s: string, k: nat, r: string)
    requires SliceOf(s, k, r)
    ensures NonSpace(r) == NonSpace(s)
    ensures NoSpaceRun(s) ==> NoSpaceRun(r)
    ensures OnlyBlanks(s) ==> OnlyBlanks(r)
  {
    var n := |r|;
    assert forall i :: 0 <= i < n ==> r[i] == s[k + i];
    SliceNonSpace(s, k, n);
  }

  lemma SliceNonSpace(s: string, k: nat, n: nat)
    requires TrimmedAt(s, k, n)
    ensures NonSpace(s[k..k + n]) == NonSpace(s)
  {
    var a, r, b := s[..k], s[k..k + n], s[k + n..];
    assert s == a + r + b;
    NonSpaceAppend(a + r, b);
    NonSpaceAppend(a, r);
    NonSpaceOfSpaces(a);
    NonSpaceOfSpaces(b);
  }

  /** `s.replace(/\s+/g, ' ')`: every maximal run of whitespace becomes one
      plain space. The result has no two adjacent whitespace characters, no
      whitespace other than the plain space, the same non-whitespace
      characters in the same order, and starts with whitespace exactly when
      `s` does. */
  function CollapseSpaces(s: string): (r: string)
    ensures NoSpaceRun(r) && OnlyBlanks(r)
    ensures NonSpace(r) == NonSpace(s)
    ensures r == [] <==> s == []
    ensures r != [] ==> (IsSpace(r[0]) <==> IsSpace(s[0]))
    decreases |s|
  {
    if s == [] then []
    else if IsSpace(s[0]) then
      var t := TrimStart(s);
      assert |t| < |s|;
      NonSpaceTrimStart(s);
      var r := CollapseSpaces(t);
      ConsShape(' ', r);
      [' '] + r
    else
      var r := CollapseSpaces(s[1..]);
      ConsShape(s[0], r);
      assert NonSpace(s) == [s[0]] + NonSpace(s[1..]);
      [s[0]] + r
  }

  /** Putting a character in front of a collapsed text keeps it collapsed,
      provided a space is put only in front of a non-space. */
  lemma ConsShape(c: char, r: string)
    requires NoSpaceRun(r) && OnlyBlanks(r)
    requires IsSpace(c) ==> c == ' ' && (r == [] || !IsSpace(r[0]))
    ensures NoSpaceRun([c] + r) && OnlyBlanks([c] + r)
    ensures NonSpace([c] + r) == (if IsSpace(c) then [] else [c]) + NonSpace(r)
  {
    var u := [c] + r;
    assert u[1..] == r;
    forall i | 0 < i < |u| ensures !(IsSpace(u[i - 1]) && IsSpace(u[i])) {
      assert u[i] == r[i - 1];
      if i > 1 {
        assert u[i - 1] == r[i - 2];
      }
    }
    forall i | 0 <= i < |u| && IsSpace(u[i]) ensures u[i] == ' ' {
      if i > 0 {
        assert u[i] == r[i - 1];
      }
    }
  }

  /** A string already in collapsed form is left as it is. */
  lemma {:induction false} CollapseSpacesFixed(t: string)
    requires NoSpaceRun(t) && OnlyBlanks(t)
    ensures CollapseSpaces(t) == t
  {
    if t != [] {
      var u := t[1..];
      CollapsedTail(t);
      CollapseSpacesFixed(u);
      if IsSpace(t[0]) {
        SpaceThenWord(t);
        assert CollapseSpaces(t) == [' '] + CollapseSpaces(u);
      } else {
        assert CollapseSpaces(t) == [t[0]] + CollapseSpaces(u);
      }
    }
  }

  lemma CollapsedTail(t: string)
    requires t != [] && NoSpaceRun(t) && OnlyBlanks(t)
    ensures NoSpaceRun(t[1..]) && OnlyBlanks(t[1..])
  {
    assert forall i :: 0 <= i < |t[1..]| ==> t[1..][i] == t[i + 1];
  }

  /** In collapsed form a leading space is followed by a non-space, so
      dropping the leading whitespace drops exactly that space. */
  lemma SpaceThenWord(t: string)
    requires t != [] && IsSpace(t[0]) && NoSpaceRun(t) && OnlyBlanks(t)
    ensures t[0] == ' ' && TrimStart(t) == t[1..]
  {
    var u := t[1..];
    if u != [] {
      assert t[1] == u[0];
      assert !IsSpace(u[0]);
    }
    assert TrimStart(u) == u;
  }

  /** `s` holds no whitespace character. */
  predicate NoSpace(s: string)
  {
    forall i :: 0 <= i < |s| ==> !IsSpace(s[i])
  }

  /** Dropping the leading whitespace of `w + b`, where `w` is all
      whitespace and `b` does not start with whitespace, leaves `b`. */
  lemma {:induction false} TrimStartAfterSpaces(w: string, b: string)
    requires AllSpace(w) && (b == [] || !IsSpace(b[0]))
    ensures TrimStart(w + b) == b
    decreases |w|
  {
    if w == [] {
      assert w + b == b;
    } else {
      assert (w + b)[0] == w[0] && (w + b)[1..] == w[1..] + b;
      TrimStartAfterSpaces(w[1..], b);
    }
  }

  /** When `a` holds a non-whitespace character, dropping the leading
      whitespace of `a + b` stops inside `a`. */
  lemma {:induction false} TrimStartKeepsRest(a: string, b: string)
    requires !AllSpace(a)
    ensures TrimStart(a + b) == TrimStart(a) + b
    decreases |a|
  {
    assert (a + b)[0] == a[0];
    if IsSpace(a[0]) {
      assert (a + b)[1..] == a[1..] + b;
      assert !AllSpace(a[1..]) by {
        var i :| 0 <= i < |a| && !IsSpace(a[i]);
        assert a[1..][i - 1] == a[i];
      }
      TrimStartKeepsRest(a[1..], b);
    }
  }

  /** One step of `CollapseSpaces`: a leading run of whitespace becomes one
      space, any other leading character is kept. */
  lemma CollapseStep(s: string)
    requires s != []
    ensures CollapseSpaces(s)
      == if IsSpace(s[0]) then [' '] + CollapseSpaces(TrimStart(s)) else [s[0]] + CollapseSpaces(s[1..])
  {
  }

  lemma HeadThenRest(u: string, c: string)
    requires u != []
    ensures [u[0]] + (u[1..] + c) == u + c
  {
    assert [u[0]] + u[1..] == u;
  }

  /** A word in front is copied as it is by `CollapseSpaces`. */
  lemma {:induction false} CollapseWord(u: string, t: string)
    requires NoSpace(u)
    ensures CollapseSpaces(u + t) == u + CollapseSpaces(t)
    decreases |u|
  {
    if u == [] {
      assert u + t == t;
    } else {
      assert CollapseSpaces(u + t) == [u[0]] + CollapseSpaces(u[1..] + t) by {
        var x := u + t;
        assert x[0] == u[0] && x[1..] == u[1..] + t;
        CollapseStep(x);
      }
      CollapseWord(u[1..], t);
      HeadThenRest(u, CollapseSpaces(t));
    }
  }

  /** Every maximal run of whitespace becomes exactly one plain space: for a
      non-empty whitespace run `w` with no whitespace on either side of it,
      the collapse of `a + w + b` is the collapse of `a`, one space, and the
      collapse of `b`. */
  lemma {:induction false} CollapseRun(a: string, w: string, b: string)
    requires w != [] && AllSpace(w)
    requires a == [] || !IsSpace(a[|a| - 1])
    requires b == [] || !IsSpace(b[0])
    ensures CollapseSpaces(a + w + b) == CollapseSpaces(a) + " " + CollapseSpaces(b)
    decreases |a|, 1
  {
    if a == [] {
      var x := a + w + b;
      assert CollapseSpaces(x) == [' '] + CollapseSpaces(b) by {
        assert x == w + b && x[0] == w[0];
        CollapseStep(x);
        TrimStartAfterSpaces(w, b);
      }
      assert CollapseSpaces(a) == [];
    } else if IsSpace(a[0]) {
      CollapseRunSpaceFirst(a, w, b);
    } else {
      CollapseRunWordFirst(a, w, b);
    }
  }

  /** `CollapseRun` when `a` starts with whitespace. */
  lemma {:induction false} CollapseRunSpaceFirst(a: string, w: string, b: string)
    requires w != [] && AllSpace(w)
    requires a != [] && IsSpace(a[0]) && !IsSpace(a[|a| - 1])
    requires b == [] || !IsSpace(b[0])
    ensures CollapseSpaces(a + w + b) == CollapseSpaces(a) + " " + CollapseSpaces(b)
    decreases |a|, 0
  {
    var t := TrimStart(a);
    TrimStartEnd(a);
    CollapseLeadingSpace(a, w + b);
    Associate(a, w, b);
    Associate(t, w, b);
    CollapseRun(t, w, b);
    CollapseStep(a);
    Regroup([' '], CollapseSpaces(t), " ", CollapseSpaces(b));
  }

  /** Leading whitespace that stops inside `a` becomes one space. */
  lemma CollapseLeadingSpace(a: string, r: string)
    requires a != [] && IsSpace(a[0]) && !AllSpace(a)
    ensures CollapseSpaces(a + r) == [' '] + CollapseSpaces(TrimStart(a) + r)
  {
    var x := a + r;
    assert x[0] == a[0];
    TrimStartKeepsRest(a, r);
    CollapseStep(x);
  }

  /** A leading character that is not whitespace is kept. */
  lemma CollapseLeadingChar(a: string, r: string)
    requires a != [] && !IsSpace(a[0])
    ensures CollapseSpaces(a + r) == [a[0]] + CollapseSpaces(a[1..] + r)
  {
    var x := a + r;
    assert x[0] == a[0] && x[1..] == a[1..] + r;
    CollapseStep(x);
  }

  /** `CollapseRun` when `a` starts with a non-whitespace character. */
  lemma {:induction false} CollapseRunWordFirst(a: string, w: string, b: string)
    requires w != [] && AllSpace(w)
    requires a != [] && !IsSpace(a[0]) && !IsSpace(a[|a| - 1])
    requires b == [] || !IsSpace(b[0])
    ensures CollapseSpaces(a + w + b) == CollapseSpaces(a) + " " + CollapseSpaces(b)
    decreases |a|, 0
  {
    var tail := a[1..];
    assert tail == [] || tail[|tail| - 1] == a[|a| - 1];
    CollapseLeadingChar(a, w + b);
    Associate(a, w, b);
    Associate(tail, w, b);
    CollapseRun(tail, w, b);
    CollapseStep(a);
    Regroup([a[0]], CollapseSpaces(tail), " ", CollapseSpaces(b));
  }

  /** Concatenation regroups freely. */
  lemma Associate<T>(p: seq<T>, q: seq<T>, r: seq<T>)
    ensures p + (q + r) == p + q + r
  {
  }

  /** The same for a head put in front of three parts. */
  lemma Regroup<T>(p: seq<T>, q: seq<T>, m: seq<T>, r: seq<T>)
    ensures p + (q + m + r) == p + q + m + r
  {
  }

  /** Leading whitespace stops before a last character that is not
      whitespace. */
  lemma TrimStartEnd(a: string)
    requires a != [] && !IsSpace(a[|a| - 1])
    ensures TrimStart(a) != [] && TrimStart(a)[|TrimStart(a)| - 1] == a[|a| - 1]
  {
    TrimStartNonBlank(a);
    var t := TrimStart(a);
    assert t == a[|a| - |t|..];
  }

  /** The length of the word `s` starts with. */
  function WordEnd(s: string): (k: nat)
    ensures k <= |s|
    ensures forall i :: 0 <= i < k ==> !IsSpace(s[i])
    ensures k < |s| ==> IsSpace(s[k])
  {
    if s == [] || IsSpace(s[0]) then 0
    else
      var k := WordEnd(s[1..]);
      assert forall i :: 0 < i < 1 + k ==> s[i] == s[1..][i - 1];
      1 + k
  }

  /** The words of `s`: its maximal runs of non-whitespace characters, in
      order. Every word is non-empty and holds no whitespace. */
  function Words(s: string): (ws: seq<string>)
    ensures forall u :: u in ws ==> u != [] && NoSpace(u)
    decreases |s|
  {
    if s == [] then []
    else if IsSpace(s[0]) then Words(s[1..])
    else
      var k := WordEnd(s);
      [s[..k]] + Words(s[k..])
  }

  /** Leading whitespace does not change the words. */
  lemma {:induction false} WordsSkipSpaces(s: string)
    ensures Words(TrimStart(s)) == Words(s)
    decreases |s|
  {
    if s != [] && IsSpace(s[0]) {
      WordsSkipSpaces(s[1..]);
    }
  }

  /** Trimming text that starts with a non-space changes only its end. */
  lemma {:induction false} TrimKeepsFront(p: string, q: string)
    requires p != [] && !IsSpace(p[0])
    requires q != [] && !IsSpace(q[0])
    ensures Trim(p + q) == p + Trim(q)
    decreases |q|
  {
    var x := p + q;
    assert x[0] == p[0] && x[|x| - 1] == q[|q| - 1];
    if IsSpace(q[|q| - 1]) {
      var q' := q[..|q| - 1];
      assert x[..|x| - 1] == p + q';
      TrimDropBack(x);
      TrimDropBack(q);
      TrimKeepsFront(p, q');
    } else {
      TrimUntouched(x);
      TrimUntouched(q);
    }
  }

  /** `replace(/\s+/g, ' ').trim()` is the words of the text joined by single
      spaces. */
  lemma {:induction false} CollapseTrimWords(s: string)
    ensures Trim(CollapseSpaces(s)) == Join(Words(s), " ")
    decreases |s|, 1
  {
    if s == [] {
    } else if IsSpace(s[0]) {
      var t := TrimStart(s);
      var c := CollapseSpaces(t);
      assert CollapseSpaces(s) == [' '] + c;
      assert ([' '] + c)[0] == ' ' && ([' '] + c)[1..] == c;
      WordsSkipSpaces(s);
      CollapseTrimWords(t);
    } else {
      var k := WordEnd(s);
      var u, rest := s[..k], s[k..];
      assert s == u + rest;
      assert Words(s) == [u] + Words(rest);
      if AllSpace(rest) {
        WordThenBlank(u, rest);
        WordsOfSpaces(rest);
      } else {
        WordThenMore(s, k, u, rest);
      }
    }
  }

  /** A word followed only by whitespace normalizes to the word. */
  lemma WordThenBlank(u: string, rest: string)
    requires u != [] && NoSpace(u) && AllSpace(rest)
    ensures Trim(CollapseSpaces(u + rest)) == u
  {
    CollapseWord(u, rest);
    TrimUntouched(u);
    if rest == [] {
      assert u + [] == u;
    } else {
      CollapseStep(rest);
      TrimStartAfterSpaces(rest, []);
      assert rest + [] == rest;
      var x := u + [' '];
      assert x[0] == u[0] && x[|x| - 1] == ' ' && x[..|x| - 1] == u;
    }
  }

  /** The step of `CollapseTrimWords` after a leading word `u` that more
      words follow. */
  lemma {:induction false} WordThenMore(s: string, k: nat, u: string, rest: string)
    requires s != [] && !IsSpace(s[0]) && k == WordEnd(s)
    requires u == s[..k] && rest == s[k..] && s == u + rest && !AllSpace(rest)
    requires Words(s) == [u] + Words(rest)
    ensures Trim(CollapseSpaces(s)) == Join(Words(s), " ")
    decreases |s|, 0
  {
    var t := TrimStart(rest);
    assert rest[0] == s[k];
    CollapseWord(u, rest);
    CollapseStep(rest);
    TrimStartNonBlank(rest);
    WordsSkipSpaces(rest);
    WordsStart(t);
    var c := CollapseSpaces(t);
    TrimKeepsFront(u + " ", c);
    Associate(u, " ", c);
    CollapseTrimWords(t);
    JoinCons(u, Words(t), " ");
  }

  /** What is left of a text that is not all whitespace, once its leading
      whitespace is dropped, starts a word. */
  lemma TrimStartNonBlank(s: string)
    requires !AllSpace(s)
    ensures TrimStart(s) != [] && !IsSpace(TrimStart(s)[0])
  {
    var i :| 0 <= i < |s| && !IsSpace(s[i]);
    TrimStartReaches(s, i);
  }

  lemma {:induction false} TrimStartReaches(s: string, i: nat)
    requires i < |s| && !IsSpace(s[i])
    ensures TrimStart(s) != [] && !IsSpace(TrimStart(s)[0])
    decreases |s|
  {
    if IsSpace(s[0]) {
      assert s[i] != s[0];
      assert s[1..][i - 1] == s[i];
      TrimStartReaches(s[1..], i - 1);
      TrimStartDropFront(s);
    } else {
      TrimStartWord(s);
    }
  }

  /** `TrimStart` drops a leading whitespace character. */
  lemma TrimStartDropFront(s: string)
    requires s != [] && IsSpace(s[0])
    ensures TrimStart(s) == TrimStart(s[1..])
  {
  }

  /** Joining a part in front of a non-empty list puts the separator
      between them. */
  lemma JoinCons(u: string, ws: seq<string>, sep: string)
    requires ws != []
    ensures Join([u] + ws, sep) == u + sep + Join(ws, sep)
  {
    var l := [u] + ws;
    assert l[0] == u && l[1..] == ws;
  }

  /** All-whitespace text has no words. */
  lemma {:induction false} WordsOfSpaces(s: string)
    requires AllSpace(s)
    ensures Words(s) == []
    decreases |s|
  {
    if s != [] {
      WordsOfSpaces(s[1..]);
    }
  }

  /** Text that starts with a non-space has a first word. */
  lemma WordsStart(s: string)
    requires s != [] && !IsSpace(s[0])
    ensures Words(s) != []
  {
  }

  /** The JavaScript `length` of a string: the number of UTF-16 code units, so
      a character outside the Basic Multilingual Plane counts twice. */
  function Utf16Length(s: string): (n: nat)
    ensures |s| <= n <= 2 * |s|
  {
    if s == [] then 0
    else (if s[0] as int > 0xFFFF then 2 else 1) + Utf16Length(s[1..])
  }
}
