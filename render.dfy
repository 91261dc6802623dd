/** `Config.format_data`: render variables into a document by going through
    its text. The document is printed with `str`, every brace is doubled, the
    doubled placeholder `{{k}}` of each variable k that occurs in the text is
    turned back into `{k}`, and `str.format(**variables)` fills them in. The
    result is parsed back with `ast.literal_eval`, which this model takes as a
    parameter `parse`.

    What the renderer means is stated by `Substitute`: every `{k}` of a
    variable k becomes the variable's text and every other character, braces
    included, comes back as it was (`RenderTextMeansSubstitute`). */
module Render {
  import opened Values

  predicate IsBrace(c: char) {
    c == '{' || c == '}'
  }

  predicate BraceFree(s: string) {
    forall i | 0 <= i < |s| :: !IsBrace(s[i])
  }

  predicate StartsWith(s: string, prefix: string) {
    |s| >= |prefix| && s[..|prefix|] == prefix
  }

  /** Python's `sub in s`. */
  function Occurs(sub: string, s: string): bool
    decreases |s|
  {
    if |s| < |sub| then false
    else if s[..|sub|] == sub then true
    else s != [] && Occurs(sub, s[1..])
  }

  /** Python's `s.replace(pattern, replacement)`: the non-overlapping
      occurrences of `pattern`, found from left to right, are replaced. */
  function Replace(s: string, pattern: string, replacement: string): string
    requires pattern != []
    decreases |s|
  {
    if |s| < |pattern| then s
    else if s[..|pattern|] == pattern then replacement + Replace(s[|pattern|..], pattern, replacement)
    else [s[0]] + Replace(s[1..], pattern, replacement)
  }

  /** The name of a replacement field that starts right after a `{`: the
      brace-free text up to the closing `}`, if there is one. */
  function FieldName(s: string): (r: Option<string>)
    ensures r.Some? ==> |r.value| < |s| && s[..|r.value|] == r.value && s[|r.value|] == '}'
    ensures r.Some? ==> BraceFree(r.value)
    decreases |s|
  {
    if s == [] || s[0] == '{' then None
    else if s[0] == '}' then Some([])
    else match FieldName(s[1..])
      case None => None
      case Some(n) =>
        assert s[..|n| + 1] == [s[0]] + s[1..][..|n|];
        Some([s[0]] + n)
  }

  /** A field that `str.format` looks up as a keyword argument: not empty,
      not all digits (that would be a positional index), and without the
      characters that start an attribute, an index, a conversion or a
      format spec. */
  predicate PlainName(n: string) {
    && n != []
    && BraceFree(n)
    && (forall i | 0 <= i < |n| :: n[i] !in ".[!:")
    && !(forall i | 0 <= i < |n| :: IsDigit(n[i]))
  }

  function Prefixed(prefix: string, r: Option<string>): Option<string> {
    match r
    case Some(rest) => Some(prefix + rest)
    case None => None
  }

  /** Python's `s.format(**kwargs)`: `{{` and `}}` stand for one brace, a
      field `{name}` for the keyword argument `name`. Anything else raises
      (None): a lone brace, a field without its closing brace, a name that is
      not a keyword argument. */
  function Format(s: string, kwargs: map<string, string>): Option<string>
    decreases |s|
  {
    if s == [] then Some([])
    else if s[0] == '{' then
      if |s| > 1 && s[1] == '{' then Prefixed("{", Format(s[2..], kwargs))
      else match FieldName(s[1..])
        case None => None
        case Some(n) =>
          if PlainName(n) && n in kwargs then Prefixed(kwargs[n], Format(s[|n| + 2..], kwargs))
          else None
    else if s[0] == '}' then
      if |s| > 1 && s[1] == '}' then Prefixed("}", Format(s[2..], kwargs)) else None
    else Prefixed([s[0]], Format(s[1..], kwargs))
  }

  /** `replace("{", "{{").replace("}", "}}")`. */
  function EscapeBraces(s: string): string {
    Replace(Replace(s, "{", "{{"), "}", "}}")
  }

  /** The loop that turns `{{k}}` back into `{k}` for each key, in order. */
  function UnescapeKeys(s: string, keys: seq<string>): string
    decreases |keys|
  {
    if keys == [] then s
    else UnescapeKeys(Replace(s, "{{" + keys[0] + "}}", "{" + keys[0] + "}"), keys[1..])
  }

  /** `dict(filter(lambda x: x[0] in text, env.items()))`. */
  function Matched(text: string, env: Dict<string>): (m: Dict<string>)
    ensures forall e | e in m :: e in env && Occurs(e.0, text)
    ensures forall e | e in env && Occurs(e.0, text) :: e in m
  {
    if env == [] then []
    else if Occurs(env[0].0, text) then [env[0]] + Matched(text, env[1..])
    else Matched(text, env[1..])
  }

  lemma {:induction false} MatchedDistinct(text: string, env: Dict<string>)
    requires DistinctKeys(env)
    ensures DistinctKeys(Matched(text, env))
  {
    if env != [] {
      var rest := env[1..];
      assert DistinctKeys(rest) by {
        forall i, j | 0 <= i < j < |rest| ensures rest[i].0 != rest[j].0 {
          assert rest[i] == env[i + 1] && rest[j] == env[j + 1];
        }
      }
      MatchedDistinct(text, rest);
      if Occurs(env[0].0, text) {
        var m := [env[0]] + Matched(text, rest);
        forall i, j | 0 <= i < j < |m| ensures m[i].0 != m[j].0 {
          if i == 0 {
            assert m[j] in Matched(text, rest);
            var l :| 0 <= l < |rest| && rest[l] == m[j];
            assert env[l + 1] == m[j];
          }
        }
      }
    }
  }

  datatype Rendering =
    | Untouched              // no variable name occurs in the text: the document is returned as it is
    | Rendered(text: string) // the text handed to literal_eval
    | Malformed              // str.format raised

  /** `format_data` on the text of the document, `env` giving each variable's text. */
  function RenderText(text: string, env: Dict<string>): Rendering {
    var matched := Matched(text, env);
    if matched == [] then Untouched
    else match Format(UnescapeKeys(EscapeBraces(text), Keys(matched)), ToMap(matched))
      case Some(r) => Rendered(r)
      case None => Malformed
  }

  /** The text each variable's value is formatted as. */
  function Texts(mapping: Dict<Value>): (texts: Dict<string>)
    ensures |texts| == |mapping|
    ensures forall i | 0 <= i < |mapping| :: texts[i] == (mapping[i].0, StrOf(mapping[i].1))
  {
    if mapping == [] then [] else [(mapping[0].0, StrOf(mapping[0].1))] + Texts(mapping[1..])
  }

  /** `Config.format_data(data, mapping)` with `parse` for `ast.literal_eval`.
      The text rendered is `str(data)`: a string document is its own text,
      without quotes. */
  function FormatData(data: Value, mapping: Dict<Value>, parse: string -> Option<Value>): Result<Value> {
    match RenderText(StrOf(data), Texts(mapping))
    case Untouched => Ok(data)
    case Rendered(text) => (match parse(text) case Some(v) => Ok(v) case None => Err(BadLiteral))
    case Malformed => Err(BadTemplate)
  }

  // ---------------------------------------------------------------------------
  // What rendering means

  /** Each `{k}` with k a key of `values` becomes `values[k]`; every other
      character, braces included, is kept. */
  function Substitute(t: string, values: map<string, string>): string
    decreases |t|
  {
    if t == [] then []
    else if t[0] == '{' && FieldName(t[1..]).Some? && FieldName(t[1..]).value in values then
      var n := FieldName(t[1..]).value;
      values[n] + Substitute(t[|n| + 2..], values)
    else [t[0]] + Substitute(t[1..], values)
  }

  /** The text after escaping and un-escaping the placeholders of `keys`:
      every brace doubled except those of a `{k}` with k in `keys`. */
  ghost function Encode(t: string, keys: set<string>): string
    decreases |t|
  {
    if t == [] then []
    else if t[0] == '{' && FieldName(t[1..]).Some? && FieldName(t[1..]).value in keys then
      var n := FieldName(t[1..]).value;
      "{" + n + "}" + Encode(t[|n| + 2..], keys)
    else if IsBrace(t[0]) then [t[0], t[0]] + Encode(t[1..], keys)
    else [t[0]] + Encode(t[1..], keys)
  }

  // ---------------------------------------------------------------------------
  // Lemmas about the text operations

  lemma {:induction false} FieldNameOf(n: string, rest: string)
    requires BraceFree(n)
    ensures FieldName(n + "}" + rest) == Some(n)
    decreases |n|
  {
    var s := n + "}" + rest;
    if n != [] {
      assert !IsBrace(n[0]);
      assert s[1..] == n[1..] + "}" + rest;
      FieldNameOf(n[1..], rest);
      assert [n[0]] + n[1..] == n;
    }
  }

  lemma OccursAtStart(sub: string, s: string)
    requires StartsWith(s, sub)
    ensures Occurs(sub, s)
  {
  }

  lemma OccursInTail(sub: string, s: string)
    requires s != [] && Occurs(sub, s[1..])
    ensures Occurs(sub, s)
  {
  }

  lemma ReplaceHead(s: string, pattern: string, replacement: string)
    requires s != [] && pattern != [] && !StartsWith(s, pattern)
    ensures Replace(s, pattern, replacement) == [s[0]] + Replace(s[1..], pattern, replacement)
  {
    if |s| < |pattern| {
      assert [s[0]] + s[1..] == s;
    }
  }

  /** Replacing a pattern that starts with `{` leaves text without `{` alone. */
  lemma {:induction false} ReplaceSkip(w: string, x: string, pattern: string, replacement: string)
    requires pattern != [] && pattern[0] == '{'
    requires forall i | 0 <= i < |w| :: w[i] != '{'
    ensures Replace(w + x, pattern, replacement) == w + Replace(x, pattern, replacement)
    decreases |w|
  {
    if w != [] {
      ReplaceHead(w + x, pattern, replacement);
      assert (w + x)[1..] == w[1..] + x;
      ReplaceSkip(w[1..], x, pattern, replacement);
      assert [w[0]] + w[1..] == w;
    } else {
      assert w + x == x;
    }
  }

  lemma {:induction false} ReplaceCharConcat(a: string, b: string, c: char, replacement: string)
    ensures Replace(a + b, [c], replacement) == Replace(a, [c], replacement) + Replace(b, [c], replacement)
    decreases |a|
  {
    if a != [] {
      assert (a + b)[1..] == a[1..] + b;
      assert (a + b)[..1] == a[..1];
      ReplaceCharConcat(a[1..], b, c, replacement);
    } else {
      assert a + b == b;
    }
  }

  lemma {:induction false} EncodeBraceFree(w: string, x: string, keys: set<string>)
    requires BraceFree(w)
    ensures Encode(w + x, keys) == w + Encode(x, keys)
    decreases |w|
  {
    if w != [] {
      assert (w + x)[0] == w[0] && !IsBrace(w[0]);
      assert (w + x)[1..] == w[1..] + x;
      EncodeBraceFree(w[1..], x, keys);
      assert [w[0]] + w[1..] == w;
    } else {
      assert w + x == x;
    }
  }

  lemma EncodeHead(u: string, keys: set<string>)
    requires u != []
    ensures Encode(u, keys) != [] && Encode(u, keys)[0] == u[0]
  {
  }

  /** If the encoded text starts with a name and `}`, so does the text. */
  lemma {:induction false} EncodeNamePrefix(u: string, w: string, keys: set<string>)
    requires BraceFree(w) && StartsWith(Encode(u, keys), w + "}")
    ensures StartsWith(u, w + "}")
    decreases |w|
  {
    var e := Encode(u, keys);
    assert e[0] == (w + "}")[0];
    if u == [] {
      assert false;
    } else {
      EncodeHead(u, keys);
      if w == [] {
        assert u[0] == '}';
      } else {
        assert u[0] == w[0] && !IsBrace(u[0]);
        assert e == [u[0]] + Encode(u[1..], keys);
        assert StartsWith(Encode(u[1..], keys), w[1..] + "}") by {
          assert Encode(u[1..], keys) == e[1..];
          assert e[1..][..|w[1..] + "}"|] == (w + "}")[1..];
        }
        EncodeNamePrefix(u[1..], w[1..], keys);
        assert u[..|w| + 1] == [u[0]] + u[1..][..|w|];
      }
    }
  }

  /** Two field names closed by `}` at the start of the same text agree. */
  lemma NamesAgree(j: string, k: string, x: string)
    requires BraceFree(j) && BraceFree(k) && StartsWith(j + "}" + x, k + "}")
    ensures j == k
  {
    var s := j + "}" + x;
    assert s == k + "}" + s[|k| + 1..];
    FieldNameOf(j, x);
    FieldNameOf(k, s[|k| + 1..]);
  }

  lemma EncodeKept(t: string, keys: set<string>)
    requires t != [] && t[0] == '{' && FieldName(t[1..]).Some? && FieldName(t[1..]).value in keys
    ensures var n := FieldName(t[1..]).value;
      Encode(t, keys) == "{" + n + "}" + Encode(t[|n| + 2..], keys)
  {
  }

  lemma EncodeDoubled(t: string, keys: set<string>)
    requires t != [] && IsBrace(t[0])
    requires !(t[0] == '{' && FieldName(t[1..]).Some? && FieldName(t[1..]).value in keys)
    ensures Encode(t, keys) == [t[0], t[0]] + Encode(t[1..], keys)
  {
  }

  lemma EncodeCopied(t: string, keys: set<string>)
    requires t != [] && !IsBrace(t[0])
    ensures Encode(t, keys) == [t[0]] + Encode(t[1..], keys)
  {
  }

  /** Escaping the braces is encoding with no placeholder kept. */
  lemma {:induction false} EscapeIsEncode(t: string)
    ensures EscapeBraces(t) == Encode(t, {})
    decreases |t|
  {
    if t != [] {
      var first := if t[0] == '{' then "{{" else [t[0]];
      assert Replace(t, "{", "{{") == first + Replace(t[1..], "{", "{{") by {
        if t[0] == '{' {
          assert t[..1] == "{";
        } else {
          ReplaceHead(t, "{", "{{");
        }
      }
      ReplaceCharConcat(first, Replace(t[1..], "{", "{{"), '}', "}}");
      EscapeIsEncode(t[1..]);
      if t[0] == '{' {
        assert Replace("{{", "}", "}}") == "{{" by {
          ReplaceHead("{{", "}", "}}");
          ReplaceHead("{", "}", "}}");
        }
      } else if t[0] == '}' {
        assert Replace([t[0]], "}", "}}") == "}}" by {
          assert [t[0]][..1] == "}";
        }
      } else {
        ReplaceHead([t[0]], "}", "}}");
      }
    }
  }

  /** Un-escaping one more key `k` keeps the encoding's shape. */
  lemma {:induction false} UnescapeStep(t: string, keys: set<string>, k: string)
    requires BraceFree(k) && k !in keys
    ensures Replace(Encode(t, keys), "{{" + k + "}}", "{" + k + "}") == Encode(t, keys + {k})
    decreases |t|, 1
  {
    if t == [] {
    } else if t[0] != '{' {
      UnescapeOther(t, keys, k);
    } else if FieldName(t[1..]).Some? && FieldName(t[1..]).value in keys {
      UnescapeKeptField(t, keys, k);
    } else if FieldName(t[1..]) == Some(k) {
      UnescapeTargetField(t, keys, k);
    } else {
      UnescapeLoneOpen(t, keys, k);
    }
  }

  /** A placeholder already kept passes through the replacement. */
  lemma {:induction false} UnescapeKeptField(t: string, keys: set<string>, k: string)
    requires BraceFree(k) && k !in keys
    requires t != [] && t[0] == '{' && FieldName(t[1..]).Some? && FieldName(t[1..]).value in keys
    ensures Replace(Encode(t, keys), "{{" + k + "}}", "{" + k + "}") == Encode(t, keys + {k})
    decreases |t|, 0
  {
    var n := FieldName(t[1..]).value;
    UnescapeStep(t[|n| + 2..], keys, k);
    EncodeKept(t, keys);
    EncodeKept(t, keys + {k});
    ReplaceOverField(n, Encode(t[|n| + 2..], keys), k);
  }

  /** No doubled placeholder starts inside a single-braced field. */
  lemma ReplaceOverField(n: string, x: string, k: string)
    requires BraceFree(n)
    ensures Replace("{" + n + "}" + x, "{{" + k + "}}", "{" + k + "}")
         == "{" + n + "}" + Replace(x, "{{" + k + "}}", "{" + k + "}")
  {
    var P, R := "{{" + k + "}}", "{" + k + "}";
    var w := n + "}";
    ClosedNameOpensNothing(n, x);
    ReplaceAfterOpen(w + x, P, R);
    ReplaceSkip(w, x, P, R);
    Associate("{", w, x);
    Associate("{", w, Replace(x, P, R));
    Associate("{", n, "}");
  }

  /** A field name and its closing brace hold no `{`. */
  lemma ClosedNameOpensNothing(n: string, x: string)
    requires BraceFree(n)
    ensures forall i | 0 <= i < |n + "}"| :: (n + "}")[i] != '{'
    ensures (n + "}" + x)[0] != '{'
  {
    var w := n + "}";
    forall i | 0 <= i < |w| ensures w[i] != '{' {
      if i < |n| { assert w[i] == n[i]; }
    }
    assert (w + x)[0] == w[0];
  }

  /** A single `{` before something else than a brace starts no `{{`. */
  lemma ReplaceAfterOpen(y: string, pattern: string, replacement: string)
    requires y != [] && y[0] != '{'
    requires |pattern| >= 2 && pattern[..2] == "{{"
    ensures Replace("{" + y, pattern, replacement) == "{" + Replace(y, pattern, replacement)
  {
    var s := "{" + y;
    assert s[1] != pattern[1];
    ReplaceHead(s, pattern, replacement);
    assert s[1..] == y;
  }

  /** The doubled placeholder of `k` becomes `{k}`. */
  lemma {:induction false} UnescapeTargetField(t: string, keys: set<string>, k: string)
    requires BraceFree(k) && k !in keys
    requires t != [] && t[0] == '{' && FieldName(t[1..]) == Some(k)
    ensures Replace(Encode(t, keys), "{{" + k + "}}", "{" + k + "}") == Encode(t, keys + {k})
    decreases |t|, 0
  {
    UnescapeStep(t[|k| + 2..], keys, k);
    var P, R, K' := "{{" + k + "}}", "{" + k + "}", keys + {k};
    var rest := t[|k| + 2..];
    var E := Encode(rest, keys);
    EncodeTarget(t, keys, k);
    EncodeKept(t, K');
    var s := P + E;
    assert s[..|P|] == P && s[|P|..] == E;
    calc {
      Replace(s, P, R);
      R + Replace(E, P, R);
      R + Encode(rest, K');
      { assert R + Encode(rest, K') == "{" + k + "}" + Encode(rest, K'); }
      Encode(t, K');
    }
  }

  /** Before it is un-escaped, the placeholder of `k` is doubled. */
  lemma EncodeTarget(t: string, keys: set<string>, k: string)
    requires BraceFree(k) && k !in keys
    requires t != [] && t[0] == '{' && FieldName(t[1..]) == Some(k)
    ensures Encode(t, keys) == "{{" + k + "}}" + Encode(t[|k| + 2..], keys)
  {
    var rest := t[|k| + 2..];
    assert t[1..] == k + ("}" + rest);
    EncodeDoubled(t, keys);
    EncodeClosedName(k, rest, keys);
    Associate("{{", k + "}}", Encode(rest, keys));
  }

  /** A name and its closing brace, outside a kept placeholder. */
  lemma EncodeClosedName(k: string, rest: string, keys: set<string>)
    requires BraceFree(k)
    ensures Encode(k + ("}" + rest), keys) == k + "}}" + Encode(rest, keys)
  {
    EncodeBraceFree(k, "}" + rest, keys);
    EncodeDoubled("}" + rest, keys);
    assert ("}" + rest)[1..] == rest;
  }

  lemma Associate(a: string, b: string, c: string)
    ensures a + (b + c) == a + b + c
  {
  }

  /** A `{` that opens no placeholder stays doubled. */
  lemma {:induction false} UnescapeLoneOpen(t: string, keys: set<string>, k: string)
    requires BraceFree(k) && k !in keys
    requires t != [] && t[0] == '{'
    requires !(FieldName(t[1..]).Some? && FieldName(t[1..]).value in keys) && FieldName(t[1..]) != Some(k)
    ensures Replace(Encode(t, keys), "{{" + k + "}}", "{" + k + "}") == Encode(t, keys + {k})
    decreases |t|, 0
  {
    UnescapeStep(t[1..], keys, k);
    var u := t[1..];
    EncodeDoubled(t, keys);
    EncodeDoubled(t, keys + {k});
    NotTargetAfterOpen(u, keys, k);
    NotTargetAtOpen(u, keys, k);
    ReplaceDoubledOpen(Encode(u, keys), "{{" + k + "}}", "{" + k + "}");
  }

  /** A doubled `{` that starts no pattern is copied. */
  lemma ReplaceDoubledOpen(e: string, pattern: string, replacement: string)
    requires pattern != []
    requires !StartsWith("{{" + e, pattern) && !StartsWith("{" + e, pattern)
    ensures Replace("{{" + e, pattern, replacement) == "{{" + Replace(e, pattern, replacement)
  {
    var s := "{{" + e;
    ReplaceHead(s, pattern, replacement);
    assert s[1..] == "{" + e;
    ReplaceHead("{" + e, pattern, replacement);
    assert ("{" + e)[1..] == e;
  }

  lemma NotTargetAfterOpen(u: string, keys: set<string>, k: string)
    requires BraceFree(k) && FieldName(u) != Some(k)
    ensures !StartsWith("{{" + Encode(u, keys), "{{" + k + "}}")
  {
    var P, E1 := "{{" + k + "}}", Encode(u, keys);
    var s := "{{" + E1;
    if StartsWith(s, P) {
      assert StartsWith(E1, k + "}") by {
        assert s[2..|P|] == E1[..|k| + 2];
        assert P[2..] == k + "}}";
        assert E1[..|k| + 1] == (k + "}}")[..|k| + 1] == k + "}";
      }
      EncodeNamePrefix(u, k, keys);
      assert u == k + "}" + u[|k| + 1..];
      FieldNameOf(k, u[|k| + 1..]);
      assert false;
    }
  }

  lemma NotTargetAtOpen(u: string, keys: set<string>, k: string)
    requires BraceFree(k) && k !in keys
    ensures !StartsWith("{" + Encode(u, keys), "{{" + k + "}}")
  {
    if u == [] {
      assert "{" + Encode(u, keys) == "{";
    } else if u[0] != '{' {
      OtherNotTarget(u, keys, k);
    } else if FieldName(u[1..]).Some? && FieldName(u[1..]).value in keys {
      KeptFieldNotTarget(u, keys, k);
    } else {
      DoubledNotTarget(u, keys, k);
    }
  }

  lemma OtherNotTarget(u: string, keys: set<string>, k: string)
    requires u != [] && u[0] != '{'
    ensures !StartsWith("{" + Encode(u, keys), "{{" + k + "}}")
  {
    EncodeHead(u, keys);
    assert ("{" + Encode(u, keys))[1] == u[0];
  }

  lemma KeptFieldNotTarget(u: string, keys: set<string>, k: string)
    requires BraceFree(k) && k !in keys
    requires u != [] && u[0] == '{' && FieldName(u[1..]).Some? && FieldName(u[1..]).value in keys
    ensures !StartsWith("{" + Encode(u, keys), "{{" + k + "}}")
  {
    var j := FieldName(u[1..]).value;
    EncodeKept(u, keys);
    KeptNotTarget(j, Encode(u[|j| + 2..], keys), k);
  }

  lemma DoubledNotTarget(u: string, keys: set<string>, k: string)
    requires BraceFree(k)
    requires u != [] && u[0] == '{' && !(FieldName(u[1..]).Some? && FieldName(u[1..]).value in keys)
    ensures !StartsWith("{" + Encode(u, keys), "{{" + k + "}}")
  {
    EncodeDoubled(u, keys);
    assert ("{" + Encode(u, keys))[2] == '{';
    assert ("{{" + k + "}}")[2] != '{';
  }

  /** A kept field `{j}` is not the placeholder of another name `k`. */
  lemma KeptNotTarget(j: string, x: string, k: string)
    requires BraceFree(j) && BraceFree(k) && j != k
    ensures !StartsWith("{" + ("{" + j + "}" + x), "{{" + k + "}}")
  {
    var y := j + "}" + x;
    assert "{" + ("{" + j + "}" + x) == "{{" + y;
    if StartsWith(y, k + "}}") {
      assert y[..|k| + 1] == (k + "}}")[..|k| + 1] == k + "}";
      NamesAgree(j, k, x);
    }
    StartsWithAppend("{{", y, k + "}}");
  }

  lemma StartsWithAppend(a: string, y: string, z: string)
    ensures StartsWith(a + y, a + z) <==> StartsWith(y, z)
  {
    if StartsWith(y, z) {
      assert (a + y)[..|a + z|] == a + y[..|z|];
    }
    if StartsWith(a + y, a + z) {
      assert y[..|z|] == (a + y)[..|a + z|][|a|..];
    }
  }

  /** A `}` or any other character is copied as encoded. */
  lemma {:induction false} UnescapeOther(t: string, keys: set<string>, k: string)
    requires BraceFree(k) && k !in keys
    requires t != [] && t[0] != '{'
    ensures Replace(Encode(t, keys), "{{" + k + "}}", "{" + k + "}") == Encode(t, keys + {k})
    decreases |t|, 0
  {
    UnescapeStep(t[1..], keys, k);
    var P, R, K' := "{{" + k + "}}", "{" + k + "}", keys + {k};
    var first := if t[0] == '}' then "}}" else [t[0]];
    var E1 := Encode(t[1..], keys);
    if t[0] == '}' {
      EncodeDoubled(t, keys);
      EncodeDoubled(t, K');
    } else {
      EncodeCopied(t, keys);
      EncodeCopied(t, K');
    }
    assert Encode(t, keys) == first + E1;
    ReplaceSkip(first, E1, P, R);
  }

  lemma {:induction false} UnescapeAll(t: string, keys: set<string>, ks: seq<string>)
    requires forall i | 0 <= i < |ks| :: BraceFree(ks[i]) && ks[i] !in keys
    requires forall i, j | 0 <= i < j < |ks| :: ks[i] != ks[j]
    ensures UnescapeKeys(Encode(t, keys), ks) == Encode(t, keys + set k | k in ks)
    decreases |ks|
  {
    if ks != [] {
      UnescapeStep(t, keys, ks[0]);
      forall i | 0 <= i < |ks[1..]| ensures ks[1..][i] !in keys + {ks[0]} {
        assert ks[1..][i] == ks[i + 1];
      }
      UnescapeAll(t, keys + {ks[0]}, ks[1..]);
      assert keys + {ks[0]} + (set k | k in ks[1..]) == keys + set k | k in ks by {
        assert forall k :: k in ks <==> k == ks[0] || k in ks[1..] by {
          assert ks == [ks[0]] + ks[1..];
        }
      }
    } else {
      assert keys + (set k | k in ks) == keys;
    }
  }

  /** Formatting the encoded text performs the substitution. */
  lemma {:induction false} FormatEncoded(t: string, values: map<string, string>)
    requires forall n | n in values :: PlainName(n)
    ensures Format(Encode(t, values.Keys), values) == Some(Substitute(t, values))
    decreases |t|, 1
  {
    if t == [] {
    } else if t[0] == '{' && FieldName(t[1..]).Some? && FieldName(t[1..]).value in values.Keys {
      FormatEncodedField(t, values);
    } else if IsBrace(t[0]) {
      FormatEncodedBrace(t, values);
    } else {
      FormatEncodedOther(t, values);
    }
  }

  /** A placeholder of a variable is kept and then filled in. */
  lemma {:induction false} FormatEncodedField(t: string, values: map<string, string>)
    requires forall n | n in values :: PlainName(n)
    requires t != [] && t[0] == '{' && FieldName(t[1..]).Some? && FieldName(t[1..]).value in values.Keys
    ensures Format(Encode(t, values.Keys), values) == Some(Substitute(t, values))
    decreases |t|, 0
  {
    var n := FieldName(t[1..]).value;
    var rest := t[|n| + 2..];
    EncodeKept(t, values.Keys);
    FormatPlaceholder(n, Encode(rest, values.Keys), values);
    FormatEncoded(rest, values);
    assert Substitute(t, values) == values[n] + Substitute(rest, values);
  }

  /** `str.format` fills in a placeholder of a keyword argument. */
  lemma FormatPlaceholder(n: string, e: string, values: map<string, string>)
    requires n in values && PlainName(n)
    ensures Format("{" + n + "}" + e, values) == Prefixed(values[n], Format(e, values))
  {
    var s := "{" + n + "}" + e;
    assert s[1..] == n + "}" + e;
    FieldNameOf(n, e);
    assert s[1] == n[0] && !IsBrace(n[0]);
    assert s[|n| + 2..] == e;
  }

  /** Any other brace is doubled and then undoubled. */
  lemma {:induction false} FormatEncodedBrace(t: string, values: map<string, string>)
    requires forall n | n in values :: PlainName(n)
    requires t != [] && IsBrace(t[0])
    requires !(t[0] == '{' && FieldName(t[1..]).Some? && FieldName(t[1..]).value in values.Keys)
    ensures Format(Encode(t, values.Keys), values) == Some(Substitute(t, values))
    decreases |t|, 0
  {
    var E := Encode(t[1..], values.Keys);
    assert Encode(t, values.Keys) == [t[0], t[0]] + E;
    assert ([t[0], t[0]] + E)[2..] == E;
    FormatEncoded(t[1..], values);
  }

  /** Any other character passes through both. */
  lemma {:induction false} FormatEncodedOther(t: string, values: map<string, string>)
    requires forall n | n in values :: PlainName(n)
    requires t != [] && !IsBrace(t[0])
    ensures Format(Encode(t, values.Keys), values) == Some(Substitute(t, values))
    decreases |t|, 0
  {
    assert Encode(t, values.Keys) == [t[0]] + Encode(t[1..], values.Keys);
    FormatEncoded(t[1..], values);
  }

  /** Without a placeholder of one of the variables, substitution keeps the text. */
  lemma {:induction false} SubstituteWithoutPlaceholders(t: string, values: map<string, string>)
    requires forall k | k in values :: !Occurs("{" + k + "}", t)
    ensures Substitute(t, values) == t
    decreases |t|, 1
  {
    if t != [] {
      if t[0] == '{' && FieldName(t[1..]).Some? && FieldName(t[1..]).value in values {
        PlaceholderOccurs(t);
        assert false;
      } else {
        SubstituteKeepsHead(t, values);
      }
    }
  }

  /** Text that starts with no placeholder keeps its first character. */
  lemma {:induction false} SubstituteKeepsHead(t: string, values: map<string, string>)
    requires forall k | k in values :: !Occurs("{" + k + "}", t)
    requires t != [] && !(t[0] == '{' && FieldName(t[1..]).Some? && FieldName(t[1..]).value in values)
    ensures Substitute(t, values) == t
    decreases |t|, 0
  {
    AbsentFromTail(t, values.Keys);
    SubstituteWithoutPlaceholders(t[1..], values);
    assert [t[0]] + t[1..] == t;
  }

  /** A text that opens with a placeholder contains it. */
  lemma PlaceholderOccurs(t: string)
    requires t != [] && t[0] == '{' && FieldName(t[1..]).Some?
    ensures Occurs("{" + FieldName(t[1..]).value + "}", t)
  {
    var n := FieldName(t[1..]).value;
    assert t[..|n| + 2] == "{" + n + "}" by {
      assert t[1..][..|n|] == n && t[1..][|n|] == '}';
    }
    OccursAtStart("{" + n + "}", t);
  }

  /** What a text does not contain, its tail does not either. */
  lemma AbsentFromTail(t: string, names: set<string>)
    requires t != [] && forall k | k in names :: !Occurs("{" + k + "}", t)
    ensures forall k | k in names :: !Occurs("{" + k + "}", t[1..])
  {
    forall k | k in names ensures !Occurs("{" + k + "}", t[1..]) {
      if Occurs("{" + k + "}", t[1..]) {
        OccursInTail("{" + k + "}", t);
      }
    }
  }


  // ---------------------------------------------------------------------------
  // Properties of format_data

  /** Escaping every brace and then formatting with no variables gives the text back. */
  lemma EscapeThenFormatIsIdentity(t: string)
    ensures Format(EscapeBraces(t), map[]) == Some(t)
  {
    var none: map<string, string> := map[];
    EscapeIsEncode(t);
    assert none.Keys == {};
    FormatEncoded(t, none);
    SubstituteWithoutPlaceholders(t, none);
  }

  /** The renderer substitutes each `{k}` of a variable that occurs in the
      text and keeps every other character, whatever order the variables
      are un-escaped in. */
  lemma RenderTextMeansSubstitute(text: string, env: Dict<string>)
    requires DistinctKeys(env)
    requires forall i | 0 <= i < |env| :: Occurs(env[i].0, text) ==> PlainName(env[i].0)
    ensures var m := Matched(text, env);
      RenderText(text, env) == if m == [] then Untouched else Rendered(Substitute(text, ToMap(m)))
  {
    var m := Matched(text, env);
    if m != [] {
      var ks := Keys(m);
      var values := ToMap(m);
      forall i | 0 <= i < |ks| ensures PlainName(ks[i]) {
        assert m[i] in m;
        var j :| 0 <= j < |env| && env[j] == m[i];
      }
      MatchedDistinct(text, env);
      assert (set k | k in ks) == values.Keys;
      EscapeIsEncode(text);
      UnescapeAll(text, {}, ks);
      assert {} + (set k | k in ks) == values.Keys;
      FormatEncoded(text, values);
    }
  }

  /** No variable name occurs in the text: the text is not rendered at all. */
  lemma {:induction false} RenderTextWithoutNames(text: string, env: Dict<string>)
    requires forall i | 0 <= i < |env| :: !Occurs(env[i].0, text)
    ensures RenderText(text, env) == Untouched
  {
    if env != [] {
      RenderTextWithoutNames(text, env[1..]);
    }
  }

  /** Rendering a text that holds no placeholder of any variable gives the
      same text (or leaves the document untouched). */
  lemma RenderWithoutPlaceholders(text: string, env: Dict<string>)
    requires DistinctKeys(env)
    requires forall i | 0 <= i < |env| :: Occurs(env[i].0, text) ==> PlainName(env[i].0)
    requires forall i | 0 <= i < |env| :: !Occurs("{" + env[i].0 + "}", text)
    ensures RenderText(text, env) in {Untouched, Rendered(text)}
  {
    RenderTextMeansSubstitute(text, env);
    var m := Matched(text, env);
    forall k | k in ToMap(m) ensures !Occurs("{" + k + "}", text) {
      assert k in Keys(m) && k in Keys(env);
      var j :| 0 <= j < |env| && Keys(env)[j] == k;
    }
    SubstituteWithoutPlaceholders(text, ToMap(m));
  }

  /** `format_data` returns the document itself when no variable name occurs
      in its text. */
  lemma FormatDataWithoutNames(data: Value, mapping: Dict<Value>, parse: string -> Option<Value>)
    requires forall i | 0 <= i < |mapping| :: !Occurs(mapping[i].0, StrOf(data))
    ensures FormatData(data, mapping, parse) == Ok(data)
  {
    RenderTextWithoutNames(StrOf(data), Texts(mapping));
  }

  /** Otherwise it parses the substituted text. */
  lemma FormatDataSubstitutes(data: Value, mapping: Dict<Value>, parse: string -> Option<Value>)
    requires DistinctKeys(mapping)
    requires forall i | 0 <= i < |mapping| :: Occurs(mapping[i].0, StrOf(data)) ==> PlainName(mapping[i].0)
    requires exists i | 0 <= i < |mapping| :: Occurs(mapping[i].0, StrOf(data))
    ensures var m := Matched(StrOf(data), Texts(mapping));
      m != [] &&
      FormatData(data, mapping, parse) ==
        match parse(Substitute(StrOf(data), ToMap(m))) case Some(v) => Ok(v) case None => Err(BadLiteral)
  {
    var text := StrOf(data);
    var texts := Texts(mapping);
    MatchedNames(text, mapping);
    TextsNames(text, mapping);
    RenderTextMeansSubstitute(text, texts);
    FormatDataRendered(data, mapping, parse, Substitute(text, ToMap(Matched(text, texts))));
  }

  lemma TextsNames(text: string, mapping: Dict<Value>)
    requires DistinctKeys(mapping)
    requires forall i | 0 <= i < |mapping| :: Occurs(mapping[i].0, text) ==> PlainName(mapping[i].0)
    ensures DistinctKeys(Texts(mapping))
    ensures forall i | 0 <= i < |Texts(mapping)| :: Occurs(Texts(mapping)[i].0, text) ==> PlainName(Texts(mapping)[i].0)
  {
  }

  lemma MatchedNames(text: string, mapping: Dict<Value>)
    requires exists i | 0 <= i < |mapping| :: Occurs(mapping[i].0, text)
    ensures Matched(text, Texts(mapping)) != []
  {
    var i :| 0 <= i < |mapping| && Occurs(mapping[i].0, text);
    assert Texts(mapping)[i] in Matched(text, Texts(mapping));
  }

  lemma FormatDataRendered(data: Value, mapping: Dict<Value>, parse: string -> Option<Value>, t: string)
    requires RenderText(StrOf(data), Texts(mapping)) == Rendered(t)
    ensures FormatData(data, mapping, parse) == match parse(t) case Some(v) => Ok(v) case None => Err(BadLiteral)
  {
  }
}
