/**
 * The keyword/value connection-string syntax that PostgreSQL clients read
 * ("Keyword/Value Connection Strings" in the libpq chapter of the PostgreSQL
 * documentation), modelled on libpq's parser: blanks separate settings,
 * blanks around '=' are skipped, a value is either a run of non-blank
 * characters or a single-quoted string, and a backslash takes the next
 * character literally. This is how the database drivers read the connection
 * strings the servers build.
 */
module Conninfo {
  import opened Wrappers

  /** One setting: keyword and value. */
  type Pair = (string, string)

  /** The blanks of C's isspace. */
  predicate IsSpace(c: char) {
    c == ' ' || c == '\t' || c == '\n' || c == '\r' || c == '\U{000B}' || c == '\U{000C}'
  }

  function SkipSpace(s: string): (r: string)
    ensures |r| <= |s|
    ensures r == [] || !IsSpace(r[0])
  {
    if s != [] && IsSpace(s[0]) then SkipSpace(s[1..]) else s
  }

  /** A keyword runs up to '=' or a blank; blanks after it are skipped, so the rest starts at '=' if one follows. */
  function ReadKeyword(s: string): (r: (string, string))
    ensures |r.1| <= |s|
  {
    if s == [] then ([], [])
    else if s[0] == '=' then ([], s)
    else if IsSpace(s[0]) then ([], SkipSpace(s[1..]))
    else
      var (k, rest) := ReadKeyword(s[1..]);
      ([s[0]] + k, rest)
  }

  /** An unquoted value runs up to a blank, which is consumed; a backslash takes the next character. */
  function ReadPlain(s: string): (r: (string, string))
    ensures |r.1| <= |s|
  {
    if s == [] then ([], [])
    else if IsSpace(s[0]) then ([], s[1..])
    else if s[0] == '\\' then
      if |s| == 1 then ([], [])
      else
        var (v, rest) := ReadPlain(s[2..]);
        ([s[1]] + v, rest)
    else
      var (v, rest) := ReadPlain(s[1..]);
      ([s[0]] + v, rest)
  }

  /** A quoted value (after its opening quote) runs up to the closing quote; None when it is unterminated. */
  function ReadQuoted(s: string): (r: Option<(string, string)>)
    ensures r.Some? ==> |r.value.1| < |s|
  {
    if s == [] then None
    else if s[0] == '\'' then Some(([], s[1..]))
    else if s[0] == '\\' then
      if |s| == 1 then None
      else
        match ReadQuoted(s[2..])
        case None => None
        case Some((v, rest)) => Some(([s[1]] + v, rest))
    else
      match ReadQuoted(s[1..])
      case None => None
      case Some((v, rest)) => Some(([s[0]] + v, rest))
  }

  function Prepend(p: Pair, r: Option<seq<Pair>>): Option<seq<Pair>> {
    match r
    case None => None
    case Some(ps) => Some([p] + ps)
  }

  /**
   * The settings of a connection string, in the order written; None for a
   * keyword without '=' or an unterminated quoted value.
   */
  function Parse(s: string): Option<seq<Pair>>
    decreases |s|
  {
    if s == [] then Some([])
    else if IsSpace(s[0]) then Parse(s[1..])
    else
      var (keyword, afterKeyword) := ReadKeyword(s);
      if afterKeyword == [] || afterKeyword[0] != '=' then None
      else
        var v := SkipSpace(afterKeyword[1..]);
        if v != [] && v[0] == '\'' then
          match ReadQuoted(v[1..])
          case None => None
          case Some((value, rest)) => Prepend((keyword, value), Parse(rest))
        else
          var (value, rest) := ReadPlain(v);
          Prepend((keyword, value), Parse(rest))
  }

  // ---------------------------------------------------------------------------
  // Writing settings

  /** A keyword as the servers write them: non-empty, no blank, no '='. */
  ghost predicate IsKeyword(k: string) {
    k != [] && forall i :: 0 <= i < |k| ==> !IsSpace(k[i]) && k[i] != '='
  }

  /** A value that reads back unquoted: non-empty, no blank, no backslash, no leading quote. */
  ghost predicate IsBareValue(v: string) {
    v != [] && v[0] != '\'' && forall i :: 0 <= i < |v| ==> !IsSpace(v[i]) && v[i] != '\\'
  }

  /** The keywords the servers write are keywords. */
  lemma SettingKeywords()
    ensures IsKeyword("host") && IsKeyword("port") && IsKeyword("dbname")
    ensures IsKeyword("user") && IsKeyword("password") && IsKeyword("sslmode")
  {
  }

  /** The default values the servers write are bare, and so are the keywords that get swallowed. */
  lemma DefaultsAreBare()
    ensures IsBareValue("localhost") && IsBareValue("5432") && IsBareValue("disable")
    ensures IsBareValue("port") && IsBareValue("user") && IsBareValue("password")
  {
    var l, f, d, o, u, p := "localhost", "5432", "disable", "port", "user", "password";
    assert IsBareValue(l) by { assert forall i :: 0 <= i < |l| ==> l[i] in "localhost"; }
    assert IsBareValue(f) by { assert forall i :: 0 <= i < |f| ==> f[i] in "5432"; }
    assert IsBareValue(d) by { assert forall i :: 0 <= i < |d| ==> d[i] in "disable"; }
    assert IsBareValue(o) by { assert forall i :: 0 <= i < |o| ==> o[i] in "port"; }
    assert IsBareValue(u) by { assert forall i :: 0 <= i < |u| ==> u[i] in "user"; }
    assert IsBareValue(p) by { assert forall i :: 0 <= i < |p| ==> p[i] in "password"; }
  }

  /** Settings written `k=v`, separated by single blanks, values unquoted. */
  function Render(pairs: seq<Pair>): string {
    if pairs == [] then []
    else pairs[0].0 + "=" + pairs[0].1 + (if |pairs| == 1 then [] else " " + Render(pairs[1..]))
  }

  /** A single setting renders as `k=v`. */
  lemma RenderOne(k: string, v: string)
    ensures Render([(k, v)]) == k + "=" + v
  {
  }

  /** A setting before others renders as `k=v`, a blank, then the others. */
  lemma RenderCons(k: string, v: string, rest: seq<Pair>)
    requires rest != []
    ensures Render([(k, v)] + rest) == k + "=" + v + (" " + Render(rest))
  {
    assert ([(k, v)] + rest)[1..] == rest;
  }

  /** A blank-led literal ` k=` and a value, as the last setting: a blank before the rendering of `k=v`. */
  lemma RenderLast(lit: string, k: string, v: string)
    requires lit == " " + k + "="
    ensures lit + v == " " + Render([(k, v)])
  {
  }

  /** A blank-led literal ` k=`, a value and the blank-led rendering of more settings. */
  lemma RenderStep(lit: string, k: string, v: string, rest: seq<Pair>, t: string)
    requires lit == " " + k + "="
    requires rest != [] && t == " " + Render(rest)
    ensures lit + v + t == " " + Render([(k, v)] + rest)
  {
    RenderCons(k, v, rest);
    assert lit + v + t == " " + (k + "=" + v + t);
  }

  /** Moving the parentheses of a concatenation one literal and value to the right. */
  lemma Regroup(a: string, lit: string, v: string, t: string)
    ensures a + lit + v + t == a + (lit + v + t)
  {
  }

  /** A value between single quotes, with backslash and quote escaped by a backslash. */
  function Quote(v: string): string {
    "'" + Escape(v) + "'"
  }

  function Escape(v: string): string {
    if v == [] then []
    else (if v[0] == '\\' || v[0] == '\'' then ['\\', v[0]] else [v[0]]) + Escape(v[1..])
  }

  /** Settings written `k='v'`, separated by single blanks, values quoted. */
  function RenderQuoted(pairs: seq<Pair>): string {
    if pairs == [] then []
    else pairs[0].0 + "=" + Quote(pairs[0].1) + (if |pairs| == 1 then [] else " " + RenderQuoted(pairs[1..]))
  }

  // ---------------------------------------------------------------------------
  // Reading back what was written

  lemma {:induction false} ReadKeywordOf(k: string, rest: string)
    requires IsKeyword(k)
    ensures ReadKeyword(k + "=" + rest) == (k, "=" + rest)
  {
    var s := k + "=" + rest;
    assert s[0] == k[0] && !IsSpace(k[0]) && k[0] != '=';
    assert s[1..] == k[1..] + "=" + rest;
    assert k == [k[0]] + k[1..];
    if |k| > 1 {
      assert IsKeyword(k[1..]) by {
        forall i | 0 <= i < |k[1..]| ensures !IsSpace(k[1..][i]) && k[1..][i] != '=' {
          assert k[1..][i] == k[i + 1];
        }
      }
      ReadKeywordOf(k[1..], rest);
    } else {
      assert s[1..] == "=" + rest;
      assert ReadKeyword(s[1..]) == ([], "=" + rest);
    }
  }

  /** A value without blanks or backslashes reads up to the blank that ends it (or to the end). */
  lemma {:induction false} ReadPlainOf(v: string, tail: string)
    requires forall i :: 0 <= i < |v| ==> !IsSpace(v[i]) && v[i] != '\\'
    requires tail == [] || tail[0] == ' '
    ensures ReadPlain(v + tail) == (v, if tail == [] then [] else tail[1..])
  {
    if v == [] {
      assert v + tail == tail;
      if tail != [] {
        assert IsSpace(tail[0]);
      }
    } else {
      assert (v + tail)[0] == v[0];
      assert (v + tail)[1..] == v[1..] + tail;
      assert v == [v[0]] + v[1..];
      ReadPlainOf(v[1..], tail);
    }
  }

  lemma {:induction false} ReadQuotedOf(v: string, rest: string)
    ensures ReadQuoted(Escape(v) + "'" + rest) == Some((v, rest))
  {
    var s := Escape(v) + "'" + rest;
    if v == [] {
      assert s == "'" + rest;
      assert s[1..] == rest;
    } else {
      ReadQuotedOf(v[1..], rest);
      assert v == [v[0]] + v[1..];
      if v[0] == '\\' || v[0] == '\'' {
        assert s == ['\\', v[0]] + (Escape(v[1..]) + "'" + rest);
        assert s[0] == '\\' && s[1] == v[0];
        assert s[2..] == Escape(v[1..]) + "'" + rest;
      } else {
        assert s == [v[0]] + (Escape(v[1..]) + "'" + rest);
        assert s[0] == v[0];
        assert s[1..] == Escape(v[1..]) + "'" + rest;
      }
    }
  }

  /** Parsing past the blank that separates two settings. */
  lemma ParseAfterBlank(rest: string)
    ensures Parse(" " + rest) == Parse(rest)
  {
    assert (" " + rest)[1..] == rest;
  }

  /** A bare setting followed by a blank (or the end) reads as that setting, then the rest. */
  lemma BareSetting(k: string, v: string, tail: string)
    requires IsKeyword(k) && IsBareValue(v)
    requires tail == [] || tail[0] == ' '
    ensures Parse(k + "=" + v + tail) == Prepend((k, v), Parse(tail))
  {
    var s := k + "=" + v + tail;
    assert s == k + "=" + (v + tail);
    ReadKeywordOf(k, v + tail);
    assert ("=" + (v + tail))[1..] == v + tail;
    ReadPlainOf(v, tail);
    if tail != [] {
      assert tail == " " + tail[1..];
      ParseAfterBlank(tail[1..]);
    }
  }

  /**
   * An empty bare value is no value at all: the blanks after '=' are skipped
   * and the next word becomes the value.
   */
  lemma EmptyValueTakesNext(k: string, w: string, tail: string)
    requires IsKeyword(k) && IsBareValue(w)
    requires tail == [] || tail[0] == ' '
    ensures Parse(k + "=" + " " + w + tail) == Prepend((k, w), Parse(tail))
  {
    var wt := w + tail;
    assert wt[0] == w[0];
    BlankAfterEquals(k, wt);
    assert k + "=" + " " + w + tail == k + "=" + " " + wt;
    assert k + "=" + w + tail == k + "=" + wt;
    BareSetting(k, w, tail);
  }

  /** Blanks between '=' and a value are skipped. */
  lemma BlankAfterEquals(k: string, x: string)
    requires IsKeyword(k)
    requires x != [] && !IsSpace(x[0])
    ensures Parse(k + "=" + " " + x) == Parse(k + "=" + x)
  {
    ReadKeywordOf(k, " " + x);
    ReadKeywordOf(k, x);
    assert k + "=" + " " + x == k + "=" + (" " + x);
    assert ("=" + (" " + x))[1..] == " " + x;
    assert ("=" + x)[1..] == x;
    assert (" " + x)[1..] == x;
    assert SkipSpace(" " + x) == x;
    assert SkipSpace(x) == x;
  }

  /** A quoted setting followed by a blank (or the end) reads as that setting, then the rest. */
  lemma QuotedSetting(k: string, v: string, tail: string)
    requires IsKeyword(k)
    ensures Parse(k + "=" + Quote(v) + tail) == Prepend((k, v), Parse(tail))
  {
    var s := k + "=" + Quote(v) + tail;
    assert s == k + "=" + ("'" + (Escape(v) + "'" + tail));
    ReadKeywordOf(k, "'" + (Escape(v) + "'" + tail));
    assert ("=" + ("'" + (Escape(v) + "'" + tail)))[1..] == "'" + (Escape(v) + "'" + tail);
    assert ("'" + (Escape(v) + "'" + tail))[1..] == Escape(v) + "'" + tail;
    ReadQuotedOf(v, tail);
  }

  /**
   * Settings that read back unquoted: every value bare, except that the last
   * one may be empty (nothing follows it for the reader to take instead).
   */
  ghost predicate BareOrEmptyLast(pairs: seq<Pair>) {
    forall i :: 0 <= i < |pairs| ==>
      IsKeyword(pairs[i].0) && (IsBareValue(pairs[i].1) || (i == |pairs| - 1 && pairs[i].1 == []))
  }

  /** An empty value at the very end reads back as empty. */
  lemma EmptyLast(k: string)
    requires IsKeyword(k)
    ensures Parse(k + "=") == Some([(k, [])])
  {
    var s := k + "=";
    ReadKeywordOf(k, []);
    assert s + [] == s;
    assert s[0] == k[0] && !IsSpace(s[0]);
    var after := ReadKeyword(s).1;
    assert after == "=" && after[1..] == [];
    assert SkipSpace([]) == [] && ReadPlain([]) == ([], []);
    assert Parse([]) == Some([]);
    var one: seq<Pair> := [(k, [])];
    assert one + [] == one;
    assert Prepend((k, []), Parse([])) == Some(one);
  }

  /** Bare settings read back as written, in order; the last value may also be empty. */
  lemma {:induction false} RenderRoundTrip(pairs: seq<Pair>)
    requires BareOrEmptyLast(pairs)
    ensures Parse(Render(pairs)) == Some(pairs)
  {
    if pairs != [] {
      var k, v := pairs[0].0, pairs[0].1;
      if |pairs| == 1 {
        assert pairs == [(k, v)];
        if v == [] {
          EmptyLast(k);
          assert Render(pairs) == k + "=";
        } else {
          BareSetting(k, v, []);
          assert pairs == [(k, v)] + [];
          assert Parse([]) == Some([]);
          assert Render(pairs) == k + "=" + v + [];
        }
      } else {
        assert BareOrEmptyLast(pairs[1..]) by {
          forall i | 0 <= i < |pairs[1..]|
            ensures IsKeyword(pairs[1..][i].0)
                 && (IsBareValue(pairs[1..][i].1) || (i == |pairs[1..]| - 1 && pairs[1..][i].1 == []))
          {
            assert pairs[1..][i] == pairs[i + 1];
          }
        }
        RenderRoundTrip(pairs[1..]);
        BareSetting(k, v, " " + Render(pairs[1..]));
        ParseAfterBlank(Render(pairs[1..]));
        assert pairs == [pairs[0]] + pairs[1..];
      }
    }
  }

  /** Quoted settings read back as written, in order, whatever the values. */
  lemma {:induction false} RenderQuotedRoundTrip(pairs: seq<Pair>)
    requires forall i :: 0 <= i < |pairs| ==> IsKeyword(pairs[i].0)
    ensures Parse(RenderQuoted(pairs)) == Some(pairs)
  {
    if pairs != [] {
      var k, v := pairs[0].0, pairs[0].1;
      if |pairs| == 1 {
        QuotedSetting(k, v, []);
        assert pairs == [(k, v)] + [];
        assert Parse([]) == Some([]);
        assert RenderQuoted(pairs) == k + "=" + Quote(v) + [];
      } else {
        RenderQuotedRoundTrip(pairs[1..]);
        QuotedSetting(k, v, " " + RenderQuoted(pairs[1..]));
        ParseAfterBlank(RenderQuoted(pairs[1..]));
        assert pairs == [pairs[0]] + pairs[1..];
      }
    }
  }

  /** Settings every one of which reads back unquoted. */
  ghost predicate AllBare(pairs: seq<Pair>) {
    forall i :: 0 <= i < |pairs| ==> IsKeyword(pairs[i].0) && IsBareValue(pairs[i].1)
  }

  /** A keyword and a bare or empty value joined by '=' make a bare value. */
  lemma BareJoin(k: string, v: string)
    requires IsBareValue(k) && (IsBareValue(v) || v == [])
    ensures IsBareValue(k + "=" + v)
  {
    var w := k + "=" + v;
    forall i | 0 <= i < |w| ensures !IsSpace(w[i]) && w[i] != '\\' {
      if i > |k| {
        assert w[i] == v[i - |k| - 1];
      } else if i < |k| {
        assert w[i] == k[i];
      }
    }
  }

  /**
   * An empty value written bare among bare settings: the reader skips the
   * blank after its '=' and takes the whole next setting `k2=v2` as its
   * value, so that setting disappears. Everything before and after reads
   * back as written. The last value may be empty, as everywhere.
   */
  lemma {:induction false} EmptyValueSwallowsNext(pre: seq<Pair>, k: string, k2: string, v2: string, post: seq<Pair>)
    requires AllBare(pre) && BareOrEmptyLast(post)
    requires IsKeyword(k) && IsBareValue(k2) && (IsBareValue(v2) || (v2 == [] && post == []))
    ensures Parse(Render(pre + [(k, ""), (k2, v2)] + post)) == Some(pre + [(k, k2 + "=" + v2)] + post)
  {
    if pre == [] {
      EmptyFirstSwallowsNext(k, k2, v2, post);
      assert pre + [(k, ""), (k2, v2)] + post == [(k, "")] + ([(k2, v2)] + post);
      assert pre + [(k, k2 + "=" + v2)] + post == [(k, k2 + "=" + v2)] + post;
    } else {
      var rest := pre[1..] + [(k, ""), (k2, v2)] + post;
      assert pre + [(k, ""), (k2, v2)] + post == [pre[0]] + rest;
      assert pre + [(k, k2 + "=" + v2)] + post == [pre[0]] + (pre[1..] + [(k, k2 + "=" + v2)] + post);
      assert AllBare(pre[1..]) by {
        forall i | 0 <= i < |pre[1..]| ensures IsKeyword(pre[1..][i].0) && IsBareValue(pre[1..][i].1) {
          assert pre[1..][i] == pre[i + 1];
        }
      }
      EmptyValueSwallowsNext(pre[1..], k, k2, v2, post);
      RenderCons(pre[0].0, pre[0].1, rest);
      BareSetting(pre[0].0, pre[0].1, " " + Render(rest));
      ParseAfterBlank(Render(rest));
    }
  }

  /** The case of EmptyValueSwallowsNext where the empty value comes first. */
  lemma EmptyFirstSwallowsNext(k: string, k2: string, v2: string, post: seq<Pair>)
    requires BareOrEmptyLast(post)
    requires IsKeyword(k) && IsBareValue(k2) && (IsBareValue(v2) || (v2 == [] && post == []))
    ensures Parse(Render([(k, "")] + ([(k2, v2)] + post))) == Some([(k, k2 + "=" + v2)] + post)
  {
    var w := k2 + "=" + v2;
    var tail := if post == [] then [] else " " + Render(post);
    BareJoin(k2, v2);
    ParseTail(post);
    RenderHead(k2, v2, post);
    RenderCons(k, "", [(k2, v2)] + post);
    EmptyGlue(k, w, tail);
    EmptyValueTakesNext(k, w, tail);
  }

  /** What follows the first setting of a rendering: nothing, or a blank and the rest. */
  lemma ParseTail(post: seq<Pair>)
    requires BareOrEmptyLast(post)
    ensures Parse(if post == [] then [] else " " + Render(post)) == Some(post)
  {
    RenderRoundTrip(post);
    if post != [] {
      ParseAfterBlank(Render(post));
    }
  }

  lemma RenderHead(k: string, v: string, post: seq<Pair>)
    ensures Render([(k, v)] + post) == k + "=" + v + (if post == [] then [] else " " + Render(post))
  {
    if post == [] {
      RenderOne(k, v);
      assert [(k, v)] + post == [(k, v)];
    } else {
      RenderCons(k, v, post);
    }
  }

  lemma EmptyGlue(k: string, w: string, tail: string)
    ensures k + "=" + "" + (" " + (w + tail)) == k + "=" + " " + w + tail
  {
  }
}
