/**
 String primitives of the JavaScript runtime that the symptom checker relies on:
 the `\s` character class (which is also the set `String.prototype.trim` strips),
 `trim`, `replace(/\s+/g, ' ')`, `split` on a single separator character, and
 the value of a hexadecimal digit, which both `parseInt` and `JSON.parse` read.
 Strings are sequences of Unicode scalar values.
 */
module Text {
  import opened Wrappers

  /** The ECMAScript WhiteSpace and LineTerminator code points: exactly the
      characters matched by the regular-expression class `\s` and removed by `trim`. */
  predicate IsWs(c: char) {
    var n := c as int;
    || (0x09 <= n <= 0x0D)
    || n == 0x20
    || n == 0xA0
    || n == 0x1680
    || (0x2000 <= n <= 0x200A)
    || n == 0x2028
    || n == 0x2029
    || n == 0x202F
    || n == 0x205F
    || n == 0x3000
    || n == 0xFEFF
  }

  /** The value of a hexadecimal digit of either case, if `c` is one. */
  function HexValue(c: char): (r: Option<nat>)
    ensures r.Some? <==> '0' <= c <= '9' || 'a' <= c <= 'f' || 'A' <= c <= 'F'
    ensures r.Some? ==> r.value < 16
    ensures r.Some? ==> (r.value < 10 <==> '0' <= c <= '9')
  {
    if '0' <= c <= '9' then Some(c as nat - '0' as nat)
    else if 'a' <= c <= 'f' then Some(c as nat - 'a' as nat + 10)
    else if 'A' <= c <= 'F' then Some(c as nat - 'A' as nat + 10)
    else None
  }

  predicate AllWs(s: string) {
    forall i :: 0 <= i < |s| ==> IsWs(s[i])
  }

  /** Every whitespace character is a plain space and is never followed by
      another whitespace character: the shape `replace(/\s+/g, ' ')` leaves. */
  predicate SingleSpaced(s: string) {
    && (forall i :: 0 <= i < |s| && IsWs(s[i]) ==> s[i] == ' ')
    && (forall i, j :: 0 <= i < |s| && 0 <= j < |s| && j == i + 1 && IsWs(s[i]) ==> !IsWs(s[j]))
  }

  /** Non-empty, with no whitespace at either end. */
  predicate Trimmed(e: string) {
    e != [] && !IsWs(e[0]) && !IsWs(e[|e| - 1])
  }

  /** The non-whitespace characters of `s`, in order. */
  function Visible(s: string): string {
    if |s| == 0 then []
    else if IsWs(s[0]) then Visible(s[1..])
    else [s[0]] + Visible(s[1..])
  }

  // ---------------------------------------------------------------------------
  // trim
  // ---------------------------------------------------------------------------

  /** Removes the longest all-whitespace prefix. */
  function TrimStart(s: string): (r: string)
    ensures |r| <= |s|
    ensures r == [] || !IsWs(r[0])
    ensures |s| > 0 && IsWs(s[0]) ==> |r| < |s|
  {
    if |s| > 0 && IsWs(s[0]) then TrimStart(s[1..]) else s
  }

  /** What `TrimStart` cuts is all whitespace, and what it keeps is the rest of `s`. */
  lemma {:induction false} TrimStartSuffix(s: string)
    ensures var r := TrimStart(s);
      r == s[|s| - |r|..] && AllWs(s[..|s| - |r|])
    decreases |s|
  {
    if |s| > 0 && IsWs(s[0]) {
      TrimStartSuffix(s[1..]);
      var r := TrimStart(s);
      var k := |s| - |r|;
      assert s[k..] == s[1..][k - 1..];
      assert s[..k] == [s[0]] + s[1..][..k - 1];
    }
  }

  /** Removes the longest all-whitespace suffix. */
  function TrimEnd(s: string): (r: string)
    ensures |r| <= |s|
    ensures r == [] || !IsWs(r[|r| - 1])
  {
    if |s| > 0 && IsWs(s[|s| - 1]) then TrimEnd(s[..|s| - 1]) else s
  }

  /** What `TrimEnd` cuts is all whitespace, and what it keeps is the start of `s`. */
  lemma {:induction false} TrimEndPrefix(s: string)
    ensures var r := TrimEnd(s);
      r == s[..|r|] && AllWs(s[|r|..])
    decreases |s|
  {
    if |s| > 0 && IsWs(s[|s| - 1]) {
      TrimEndPrefix(s[..|s| - 1]);
      var r := TrimEnd(s);
      assert s[..|s| - 1][..|r|] == s[..|r|];
      assert s[|r|..] == s[..|s| - 1][|r|..] + [s[|s| - 1]];
    }
  }

  /** `String.prototype.trim`: the part of `s` left after cutting an
      all-whitespace prefix and an all-whitespace suffix, neither end of which
      is whitespace. */
  function Trim(s: string): (r: string)
    ensures |r| <= |s|
    ensures r == [] || Trimmed(r)
  {
    TrimEndPrefix(TrimStart(s));
    TrimEnd(TrimStart(s))
  }

  /** Where the trimmed text sits: `s` is an all-whitespace prefix, then
      `TrimStart(s)`, which is the trimmed text followed by an all-whitespace
      suffix. */
  lemma TrimInside(s: string)
    ensures var t := TrimStart(s);
      && t == s[|s| - |t|..] && AllWs(s[..|s| - |t|])
      && Trim(s) <= t && AllWs(t[|Trim(s)|..])
  {
    TrimStartSuffix(s);
    TrimEndPrefix(TrimStart(s));
  }

  /** A text is the part before its suffix `t`, a prefix `m` of `t`, and the
      rest of `t`. */
  lemma ThreeParts(s: string, t: string, m: string)
    requires |t| <= |s| && t == s[|s| - |t|..]
    requires m <= t
    ensures s == s[..|s| - |t|] + (m + t[|m|..])
  {
    assert t == m + t[|m|..];
  }

  /** `!s.trim()` in JavaScript: the text is empty or only whitespace. */
  predicate Blank(s: string) {
    Trim(s) == []
  }

  // ---------------------------------------------------------------------------
  // replace(/\s+/g, ' ')
  // ---------------------------------------------------------------------------

  /** Replaces every maximal run of whitespace by one space. */
  function Collapse(s: string): (r: string)
    ensures |r| <= |s|
    ensures (r == []) == (s == [])
    decreases |s|
  {
    if |s| == 0 then []
    else if IsWs(s[0]) then [' '] + Collapse(TrimStart(s))
    else [s[0]] + Collapse(s[1..])
  }

  /** `Collapse` keeps a visible first or last character where it is and turns
      a leading whitespace run into a space. */
  lemma {:induction false} CollapseEnds(s: string)
    ensures var r := Collapse(s);
      && (r != [] && !IsWs(s[0]) ==> r[0] == s[0])
      && (r != [] && IsWs(s[0]) ==> r[0] == ' ')
      && (|s| > 0 && !IsWs(s[|s| - 1]) ==> r != [] && r[|r| - 1] == s[|s| - 1])
    decreases |s|
  {
    if |s| > 0 && !IsWs(s[|s| - 1]) {
      var tail := if IsWs(s[0]) then TrimStart(s) else s[1..];
      var r := Collapse(s);
      assert r == [r[0]] + Collapse(tail);
      TrimStartKeepsVisibleEnd(s);
      if tail != [] {
        assert tail[|tail| - 1] == s[|s| - 1];
        CollapseEnds(tail);
      }
    }
  }

  // ---------------------------------------------------------------------------
  // split / join on one separator character
  // ---------------------------------------------------------------------------

  /** `s.split(sep)` for a one-character separator: always at least one piece. */
  function Split(s: string, sep: char): (r: seq<string>)
    ensures |r| >= 1
    ensures forall i :: 0 <= i < |r| ==> sep !in r[i]
    ensures r[0] <= s
    ensures Join(r, sep) == s
  {
    if |s| == 0 then [[]]
    else
      var rest := Split(s[1..], sep);
      if s[0] == sep then
        [[]] + rest
      else
        var r := [[s[0]] + rest[0]] + rest[1..];
        assert Join(r, sep) == s by {
          if |rest| > 1 {
            assert Join(rest, sep) == rest[0] + [sep] + Join(rest[1..], sep);
          }
        }
        r
  }

  /** `pieces.join(sep)`. */
  function Join(pieces: seq<string>, sep: char): string
    requires |pieces| >= 1
  {
    if |pieces| == 1 then pieces[0]
    else pieces[0] + [sep] + Join(pieces[1..], sep)
  }

  // ---------------------------------------------------------------------------
  // Lemmas
  // ---------------------------------------------------------------------------

  /** Whitespace in front of a string is invisible to `TrimStart`. */
  lemma {:induction false} TrimStartWsPrefix(w: string, u: string)
    requires AllWs(w)
    ensures TrimStart(w + u) == TrimStart(u)
    decreases |w|
  {
    if |w| > 0 {
      assert (w + u)[0] == w[0];
      assert (w + u)[1..] == w[1..] + u;
      assert AllWs(w[1..]);
      TrimStartWsPrefix(w[1..], u);
    } else {
      assert w + u == u;
    }
  }

  /** When `a` holds a visible character, `TrimStart` stops inside `a`. */
  lemma {:induction false} TrimStartConcat(a: string, b: string)
    requires !AllWs(a)
    ensures TrimStart(a + b) == TrimStart(a) + b
    decreases |a|
  {
    if IsWs(a[0]) {
      assert (a + b)[1..] == a[1..] + b;
      assert !AllWs(a[1..]) by {
        var i :| 0 <= i < |a| && !IsWs(a[i]);
        assert a[1..][i - 1] == a[i];
      }
      TrimStartConcat(a[1..], b);
    }
  }

  /** Whitespace after a string is invisible to `TrimEnd`. */
  lemma {:induction false} TrimEndWsSuffix(y: string, w: string)
    requires AllWs(w)
    ensures TrimEnd(y + w) == TrimEnd(y)
    decreases |w|
  {
    if |w| > 0 {
      assert (y + w)[|y + w| - 1] == w[|w| - 1];
      assert (y + w)[..|y + w| - 1] == y + w[..|w| - 1];
      assert AllWs(w[..|w| - 1]);
      TrimEndWsSuffix(y, w[..|w| - 1]);
    } else {
      assert y + w == y;
    }
  }

  /** `trim` ignores leading whitespace. */
  lemma TrimWsPrefix(w: string, y: string)
    requires AllWs(w)
    ensures Trim(w + y) == Trim(y)
  {
    TrimStartWsPrefix(w, y);
  }

  /** `trim` ignores trailing whitespace. */
  lemma TrimWsSuffix(y: string, w: string)
    requires AllWs(w)
    ensures Trim(y + w) == Trim(y)
  {
    if AllWs(y) {
      assert AllWs(y + w);
      AllWsTrimStart(y + w);
      AllWsTrimStart(y);
    } else {
      TrimStartConcat(y, w);
      TrimEndWsSuffix(TrimStart(y), w);
    }
  }

  lemma AllWsTrimStart(s: string)
    requires AllWs(s)
    ensures TrimStart(s) == []
  {
  }

  /** JavaScript's `!s.trim()` holds exactly for the all-whitespace strings. */
  lemma BlankIffAllWs(s: string)
    ensures Blank(s) <==> AllWs(s)
  {
    TrimInside(s);
    var t := TrimStart(s);
    var k := |s| - |t|;
    if Blank(s) {
      assert t[0..] == t;
      assert s == s[..k] + t;
    } else {
      assert s[k] == t[0] == Trim(s)[0];
    }
  }

  /** A run of whitespace collapses to one space. */
  lemma CollapseWsRun(w: string)
    requires |w| > 0 && AllWs(w)
    ensures Collapse(w) == " "
  {
    AllWsTrimStart(w);
  }

  lemma AppendAssoc<T>(x: seq<T>, y: seq<T>, z: seq<T>)
    ensures (x + y) + z == x + (y + z)
  {
  }

  /** A visible first character is copied through by `Collapse`. */
  lemma CollapseVisibleHead(c: char, x: string)
    requires !IsWs(c)
    ensures Collapse([c] + x) == [c] + Collapse(x)
  {
    assert ([c] + x)[1..] == x;
  }

  /** A leading whitespace run becomes one space. */
  lemma {:induction false} CollapseWsHead(w: string, x: string)
    requires |w| > 0 && AllWs(w)
    ensures Collapse(w + x) == [' '] + Collapse(TrimStart(x))
  {
    assert (w + x)[0] == w[0];
    TrimStartWsPrefix(w, x);
  }

  /** A whitespace run between a visibly ending and a visibly starting part
      becomes exactly one space, and each part collapses on its own. */
  lemma CollapseRunBetween(a: string, w: string, b: string)
    requires a == [] || !IsWs(a[|a| - 1])
    requires |w| > 0 && AllWs(w)
    requires b == [] || !IsWs(b[0])
    ensures Collapse(a + w + b) == Collapse(a) + [' '] + Collapse(b)
  {
    var x := w + b;
    AppendAssoc(a, w, b);
    CollapseConcat(a, x);
    CollapseWsHead(w, b);
    VisibleStartFixed(b);
    AppendAssoc(Collapse(a), [' '], Collapse(b));
  }

  /** A text that starts visibly is left as it is by `TrimStart`. */
  lemma VisibleStartFixed(b: string)
    requires b == [] || !IsWs(b[0])
    ensures TrimStart(b) == b
  {
    if b != [] {
      VisibleStart(b, []);
      assert b + [] == b;
    }
  }

  /** `Collapse` distributes over a concatenation whose left part does not end
      inside a whitespace run. */
  lemma {:induction false} CollapseConcat(a: string, b: string)
    requires a == [] || !IsWs(a[|a| - 1])
    ensures Collapse(a + b) == Collapse(a) + Collapse(b)
    decreases |a|
  {
    if |a| == 0 {
      assert a + b == b;
    } else if !IsWs(a[0]) {
      var a' := a[1..];
      assert a == [a[0]] + a';
      CollapseConcat(a', b);
      CollapseConcatVisibleStep(a[0], a', b);
    } else {
      var t := TrimStart(a);
      var w := a[..|a| - |t|];
      TrimStartKeepsVisibleEnd(a);
      TrimStartSuffix(a);
      assert a == w + t;
      CollapseConcat(t, b);
      CollapseConcatWsStep(w, t, b);
    }
  }

  /** The step of `CollapseConcat` for a visible first character. */
  lemma CollapseConcatVisibleStep(c: char, a: string, b: string)
    requires !IsWs(c)
    requires Collapse(a + b) == Collapse(a) + Collapse(b)
    ensures Collapse([c] + a + b) == Collapse([c] + a) + Collapse(b)
  {
    assert [c] + a + b == [c] + (a + b);
    CollapseVisibleHead(c, a + b);
    CollapseVisibleHead(c, a);
    AppendAssoc([c], Collapse(a), Collapse(b));
  }

  /** The step of `CollapseConcat` for a leading whitespace run. */
  lemma CollapseConcatWsStep(w: string, t: string, b: string)
    requires |w| > 0 && AllWs(w)
    requires t != [] && !IsWs(t[0])
    requires Collapse(t + b) == Collapse(t) + Collapse(b)
    ensures Collapse(w + t + b) == Collapse(w + t) + Collapse(b)
  {
    AppendAssoc(w, t, b);
    CollapseWsHead(w, t + b);
    CollapseWsHead(w, t);
    VisibleStart(t, b);
    VisibleStart(t, []);
    assert t + [] == t;
    AppendAssoc([' '], Collapse(t), Collapse(b));
  }

  /** Trimming the front of a text that ends visibly leaves that end in place. */
  lemma {:induction false} TrimStartKeepsVisibleEnd(a: string)
    ensures a != [] && !IsWs(a[|a| - 1]) ==>
      TrimStart(a) != [] && TrimStart(a)[|TrimStart(a)| - 1] == a[|a| - 1]
    decreases |a|
  {
    if a != [] && !IsWs(a[|a| - 1]) && IsWs(a[0]) {
      assert |a| > 1;
      assert a[1..][|a| - 2] == a[|a| - 1];
      TrimStartKeepsVisibleEnd(a[1..]);
    }
  }

  /** A text that starts visibly is left alone by `TrimStart`, whatever follows. */
  lemma VisibleStart(t: string, b: string)
    requires t != [] && !IsWs(t[0])
    ensures TrimStart(t + b) == t + b
  {
    assert (t + b)[0] == t[0];
  }

  /** `Collapse` leaves only single plain spaces between visible characters. */
  lemma {:induction false} CollapseSingleSpaced(s: string)
    ensures SingleSpaced(Collapse(s))
    decreases |s|
  {
    if |s| > 0 {
      var r := Collapse(s);
      var tail := if IsWs(s[0]) then TrimStart(s) else s[1..];
      var rest := Collapse(tail);
      CollapseSingleSpaced(tail);
      assert r == [r[0]] + rest;
      forall i | 0 <= i < |r| && IsWs(r[i])
        ensures r[i] == ' '
      {
        if i > 0 {
          assert r[i] == rest[i - 1];
        }
      }
      forall i, j | 0 <= i < j < |r| && j == i + 1 && IsWs(r[i])
        ensures !IsWs(r[j])
      {
        assert r[j] == rest[i];
        if i > 0 {
          assert r[i] == rest[i - 1];
        }
      }
    }
  }

  /** Collapsing keeps both visible ends in place. */
  lemma CollapseTrimmed(t: string)
    requires Trimmed(t)
    ensures Trimmed(Collapse(t))
  {
    CollapseEnds(t);
  }

  /** A visible character absent from the input is absent from the output. */
  lemma {:induction false} CollapseKeepsOut(s: string, c: char)
    requires !IsWs(c) && c !in s
    ensures c !in Collapse(s)
    decreases |s|
  {
    if |s| > 0 {
      var tail := if IsWs(s[0]) then TrimStart(s) else s[1..];
      TrimStartSuffix(s);
      assert c !in tail;
      CollapseKeepsOut(tail, c);
    }
  }

  /** `TrimStart` commutes with `Collapse`. */
  lemma TrimStartCollapse(p: string)
    ensures TrimStart(Collapse(p)) == Collapse(TrimStart(p))
  {
    if |p| > 0 && IsWs(p[0]) {
      var x := Collapse(TrimStart(p));
      assert Collapse(p) == [' '] + x;
      assert ([' '] + x)[1..] == x;
    }
  }

  /** `TrimEnd` commutes with `Collapse`. */
  lemma TrimEndCollapse(q: string)
    ensures TrimEnd(Collapse(q)) == Collapse(TrimEnd(q))
  {
    var e := TrimEnd(q);
    TrimEndPrefix(q);
    PrefixRest(q, e);
    TrimEndCollapseParts(e, q[|e|..]);
  }

  /** Collapsing a visibly-ending text followed by whitespace, then trimming
      the end, gives the collapsed text. */
  lemma {:induction false} TrimEndCollapseParts(e: string, w: string)
    requires e == [] || !IsWs(e[|e| - 1])
    requires AllWs(w)
    ensures TrimEnd(Collapse(e + w)) == Collapse(e)
  {
    CollapseConcat(e, w);
    var ce := Collapse(e);
    CollapseVisibleEnd(e);
    TrimEndVisible(ce);
    if |w| > 0 {
      CollapseWsRun(w);
      OneSpace();
      TrimEndWsSuffix(ce, " ");
    } else {
      assert ce + Collapse(w) == ce;
    }
  }

  lemma OneSpace()
    ensures AllWs(" ")
  {
    assert " "[0] == ' ';
  }

  lemma PrefixRest<T>(q: seq<T>, e: seq<T>)
    requires e <= q
    ensures q == e + q[|e|..]
  {
  }

  /** A text that ends visibly still ends visibly once collapsed. */
  lemma CollapseVisibleEnd(e: string)
    requires e == [] || !IsWs(e[|e| - 1])
    ensures var c := Collapse(e); c == [] || !IsWs(c[|c| - 1])
  {
    CollapseEnds(e);
  }

  lemma TrimEndVisible(x: string)
    requires x == [] || !IsWs(x[|x| - 1])
    ensures TrimEnd(x) == x
  {
  }

  /** Trimming after collapsing equals collapsing after trimming. */
  lemma TrimCollapse(p: string)
    ensures Trim(Collapse(p)) == Collapse(Trim(p))
  {
    TrimStartCollapse(p);
    TrimEndCollapse(TrimStart(p));
  }

  /** `Collapse` keeps every visible character, in order: it changes whitespace only. */
  lemma {:induction false} CollapseVisible(s: string)
    ensures Visible(Collapse(s)) == Visible(s)
    decreases |s|
  {
    if |s| == 0 {
    } else if IsWs(s[0]) {
      var t := TrimStart(s);
      TrimStartSuffix(s);
      VisibleWsPrefix(s[..|s| - |t|], t);
      assert s == s[..|s| - |t|] + t;
      assert ([' '] + Collapse(t))[1..] == Collapse(t);
      CollapseVisible(t);
    } else {
      assert ([s[0]] + Collapse(s[1..]))[1..] == Collapse(s[1..]);
      CollapseVisible(s[1..]);
    }
  }

  lemma {:induction false} VisibleWsPrefix(w: string, u: string)
    requires AllWs(w)
    ensures Visible(w + u) == Visible(u)
    decreases |w|
  {
    if |w| > 0 {
      assert (w + u)[0] == w[0];
      assert (w + u)[1..] == w[1..] + u;
      assert AllWs(w[1..]);
      VisibleWsPrefix(w[1..], u);
    } else {
      assert w + u == u;
    }
  }

  /** One non-separator character in front joins the first piece. */
  lemma SplitConsChar(c: char, u: string, sep: char)
    requires c != sep
    ensures Split([c] + u, sep) == [[c] + Split(u, sep)[0]] + Split(u, sep)[1..]
  {
    assert ([c] + u)[0] == c;
    assert ([c] + u)[1..] == u;
  }

  /** Prepending separator-free text extends the first piece only. */
  lemma {:induction false} SplitPrepend(w: string, u: string, sep: char)
    requires sep !in w
    ensures Split(w + u, sep) == [w + Split(u, sep)[0]] + Split(u, sep)[1..]
    decreases |w|
  {
    var p := Split(u, sep);
    if |w| > 0 {
      var w' := w[1..];
      assert w == [w[0]] + w';
      assert w + u == [w[0]] + (w' + u);
      SplitPrepend(w', u, sep);
      var q := Split(w' + u, sep);
      assert q == [w' + p[0]] + p[1..];
      SplitConsChar(w[0], w' + u, sep);
      assert q[0] == w' + p[0] && q[1..] == p[1..];
      AppendAssoc([w[0]], w', p[0]);
    } else {
      assert w + u == u;
      assert w + p[0] == p[0];
      assert p == [p[0]] + p[1..];
    }
  }

  /** Appending separator-free text extends the last piece only. */
  lemma {:induction false} SplitAppend(x: string, w: string, sep: char)
    requires sep !in w
    ensures var p := Split(x, sep);
      Split(x + w, sep) == p[..|p| - 1] + [p[|p| - 1] + w]
    decreases |x|
  {
    if |x| == 0 {
      assert x + w == w;
      SplitPrepend(w, [], sep);
      assert w + [] == w;
    } else {
      assert x == [x[0]] + x[1..];
      SplitAppend(x[1..], w, sep);
      SplitAppendStep(x[0], x[1..], w, sep);
    }
  }

  /** The step of `SplitAppend` for one more character in front. */
  lemma SplitAppendStep(c: char, x: string, w: string, sep: char)
    requires var p := Split(x, sep);
      Split(x + w, sep) == p[..|p| - 1] + [p[|p| - 1] + w]
    ensures var p := Split([c] + x, sep);
      Split([c] + x + w, sep) == p[..|p| - 1] + [p[|p| - 1] + w]
  {
    var q := Split(x, sep);
    assert ([c] + x + w)[0] == c && ([c] + x + w)[1..] == x + w;
    assert ([c] + x)[0] == c && ([c] + x)[1..] == x;
    if c != sep && |q| == 1 {
      assert [c] + (q[0] + w) == ([c] + q[0]) + w;
    }
  }

  /** Splitting undoes joining, provided no piece holds the separator. */
  lemma {:induction false} SplitJoin(ps: seq<string>, sep: char)
    requires |ps| >= 1
    requires forall i :: 0 <= i < |ps| ==> sep !in ps[i]
    ensures Split(Join(ps, sep), sep) == ps
    decreases |ps|
  {
    if |ps| == 1 {
      SplitPrepend(ps[0], [], sep);
      assert ps[0] + [] == ps[0];
    } else {
      SplitJoin(ps[1..], sep);
      var tail := [sep] + Join(ps[1..], sep);
      assert Join(ps, sep) == ps[0] + tail;
      SplitPrepend(ps[0], tail, sep);
      assert tail[0] == sep && tail[1..] == Join(ps[1..], sep);
      assert Split(tail, sep) == [[]] + ps[1..];
      assert Split(tail, sep)[0] == [] && Split(tail, sep)[1..] == ps[1..];
      assert ps[0] + [] == ps[0];
      assert ps == [ps[0]] + ps[1..];
    }
  }
}
