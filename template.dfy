/**
 * The subset of Python's `str.format(**ctx)` that rename patterns use: literal text,
 * the escapes "{{" and "}}", and the named fields {folder}, {date}, {orig} and
 * {counter}, the last with an optional zero-padding width ({counter:03d}).
 * Anything else is a failure, which the name builder turns into its fallback.
 */
module Template {
  import opened Wrappers
  import opened Text

  /** The keyword arguments `_build_base_name` passes to `format`. */
  datatype Context = Context(folder: string, date: string, counter: nat, orig: string)

  predicate IsBrace(c: char) {
    c == '{' || c == '}'
  }

  predicate BraceFree(s: string) {
    forall i :: 0 <= i < |s| ==> !IsBrace(s[i])
  }

  /** Index of the first brace in `s` at or after `i`, or |s| when there is none. */
  function FirstBraceFrom(s: string, i: nat): (k: nat)
    requires i <= |s|
    ensures i <= k <= |s|
    decreases |s| - i
  {
    if i == |s| || IsBrace(s[i]) then i else FirstBraceFrom(s, i + 1)
  }

  /** Index of the first brace in `s`, or |s| when there is none. */
  function FirstBrace(s: string): (k: nat)
    ensures k <= |s|
  {
    FirstBraceFrom(s, 0)
  }

  lemma {:induction false} FirstBraceFromSpec(s: string, i: nat)
    requires i <= |s|
    ensures forall j :: i <= j < FirstBraceFrom(s, i) ==> !IsBrace(s[j])
    ensures FirstBraceFrom(s, i) < |s| ==> IsBrace(s[FirstBraceFrom(s, i)])
    decreases |s| - i
  {
    if i < |s| && !IsBrace(s[i]) {
      FirstBraceFromSpec(s, i + 1);
    }
  }

  /** The text before the first brace is brace-free, and a brace stands at that index. */
  lemma FirstBraceSpec(s: string)
    ensures BraceFree(s[..FirstBrace(s)])
    ensures FirstBrace(s) < |s| ==> IsBrace(s[FirstBrace(s)])
  {
    FirstBraceFromSpec(s, 0);
  }

  lemma {:induction false} FirstBraceFromAt(s: string, i: nat, k: nat)
    requires i <= k <= |s|
    requires forall j :: i <= j < k ==> !IsBrace(s[j])
    requires k < |s| ==> IsBrace(s[k])
    ensures FirstBraceFrom(s, i) == k
    decreases k - i
  {
    if i < k {
      FirstBraceFromAt(s, i + 1, k);
    }
  }

  /** The first brace is at any index with a brace there, or the end, and none before it. */
  lemma FirstBraceAt(s: string, k: nat)
    requires k <= |s| && BraceFree(s[..k])
    requires k < |s| ==> IsBrace(s[k])
    ensures FirstBrace(s) == k
  {
    assert forall j :: 0 <= j < k ==> s[..k][j] == s[j];
    FirstBraceFromAt(s, 0, k);
  }

  /** Index of the first `c` in `s` at or after `i`, or |s| when there is none. */
  function FirstIndexFrom(s: string, c: char, i: nat): (k: nat)
    requires i <= |s|
    ensures i <= k <= |s|
    ensures k < |s| ==> s[k] == c
    decreases |s| - i
  {
    if i == |s| || s[i] == c then i else FirstIndexFrom(s, c, i + 1)
  }

  /** Index of the first `c` in `s`, or |s| when there is none. */
  function FirstIndex(s: string, c: char): (k: nat)
    ensures k <= |s|
    ensures k < |s| ==> s[k] == c
  {
    FirstIndexFrom(s, c, 0)
  }

  lemma {:induction false} FirstIndexFromAt(s: string, c: char, i: nat, k: nat)
    requires i <= k <= |s|
    requires forall j :: i <= j < k ==> s[j] != c
    requires k < |s| ==> s[k] == c
    ensures FirstIndexFrom(s, c, i) == k
    decreases k - i
  {
    if i < k {
      FirstIndexFromAt(s, c, i + 1, k);
    }
  }

  /** Without any `c`, the search runs to the end. */
  lemma FirstIndexNone(s: string, c: char)
    requires c !in s
    ensures FirstIndex(s, c) == |s|
  {
    FirstIndexFromAt(s, c, 0, |s|);
  }

  /** The first `c` is at any index holding `c` with none before it. */
  lemma FirstIndexAt(s: string, c: char, k: nat)
    requires k < |s| && s[k] == c
    requires forall i :: 0 <= i < k ==> s[i] != c
    ensures FirstIndex(s, c) == k
  {
    FirstIndexFromAt(s, c, 0, k);
  }

  /** A field without a format spec is the context value of its name, the counter in decimal. */
  lemma PlainField(name: string, ctx: Context)
    requires ':' !in name
    ensures name == "folder" ==> Field(name, ctx) == Ok(ctx.folder)
    ensures name == "date" ==> Field(name, ctx) == Ok(ctx.date)
    ensures name == "orig" ==> Field(name, ctx) == Ok(ctx.orig)
    ensures name == "counter" ==> Field(name, ctx) == Ok(Decimal(ctx.counter))
  {
    FirstIndexNone(name, ':');
    assert name[..|name|] == name;
  }

  /** A string field accepts the format specs "" and "s" only, and either gives the value itself. */
  lemma StringFieldSpec(name: string, spec: string, ctx: Context)
    requires name == "folder" || name == "date" || name == "orig"
    ensures Field(name + ":" + spec, ctx).Ok? <==> spec == "" || spec == "s"
    ensures Field(name + ":" + spec, ctx).Ok? ==>
              Field(name + ":" + spec, ctx).value == (if name == "folder" then ctx.folder
                                                      else if name == "date" then ctx.date else ctx.orig)
  {
    var f := name + ":" + spec;
    assert ':' !in name;
    FirstIndexAt(f, ':', |name|);
    assert f[..|name|] == name && f[|name| + 1..] == spec;
  }

  /** A "counter:" field is formatted by its spec. */
  lemma CounterSpec(spec: string, ctx: Context)
    ensures Field("counter:" + spec, ctx) == FormatInt(ctx.counter, spec)
  {
    var f := "counter:" + spec;
    FirstIndexAt(f, ':', 7);
    assert f[..7] == "counter" && f[8..] == spec;
  }

  /** `sys.maxsize` on a 64-bit build: CPython reads a format width into a `Py_ssize_t`. */
  const MaxWidth: nat := 9223372036854775807

  /** Zero padding to the width a digit string gives, an error when that width does not fit. */
  function ZeroPadded(n: nat, width: string): (r: Result<string>)
    requires AllDigits(width)
    ensures r.Ok? <==> Value(width) <= MaxWidth
    ensures r.Ok? ==> r.value == PadNat(n, Value(width))
  {
    if Value(width) <= MaxWidth then Ok(PadNat(n, Value(width)))
    else Err("Too many decimal digits in format string")
  }

  /** An integer field: format spec "", "d", or "0" + width digits with an optional "d". */
  function FormatInt(n: nat, spec: string): (r: Result<string>)
    ensures r.Ok? ==> AllDigits(r.value) && Value(r.value) == n
  {
    if spec == "" || spec == "d" then ValueOfDecimal(n); Ok(Decimal(n))
    else if spec[0] == '0' then
      var width := if spec[|spec| - 1] == 'd' then spec[1..|spec| - 1] else spec[1..];
      if AllDigits(width) then PadNatRoundTrip(n, Value(width)); ZeroPadded(n, width)
      else Err("Invalid format specifier")
    else Err("Invalid format specifier")
  }

  /** A string field: format spec "" or "s". */
  function FormatStr(v: string, spec: string): Result<string> {
    if spec == "" || spec == "s" then Ok(v) else Err("Invalid format specifier")
  }

  /** The text between a field's braces: a name, optionally ':' and a format spec. */
  function Field(f: string, ctx: Context): (r: Result<string>)
    ensures r.Ok? ==> f[..FirstIndex(f, ':')] in {"counter", "folder", "date", "orig"}
  {
    var colon := FirstIndex(f, ':');
    var name := f[..colon];
    var spec := if colon < |f| then f[colon + 1..] else "";
    if name == "counter" then FormatInt(ctx.counter, spec)
    else if name == "folder" then FormatStr(ctx.folder, spec)
    else if name == "date" then FormatStr(ctx.date, spec)
    else if name == "orig" then FormatStr(ctx.orig, spec)
    else Err("KeyError: " + name)
  }

  /** `pattern.format(**ctx)`, scanning left to right like Python's formatter. */
  function Render(p: string, ctx: Context): Result<string>
    decreases |p|
  {
    if p == [] then Ok("")
    else if |p| >= 2 && p[0] == '{' && p[1] == '{' then
      var rest :- Render(p[2..], ctx);
      Ok("{" + rest)
    else if |p| >= 2 && p[0] == '}' && p[1] == '}' then
      var rest :- Render(p[2..], ctx);
      Ok("}" + rest)
    else if p[0] == '}' then Err("Single '}' encountered in format string")
    else if p[0] == '{' then RenderAfterOpen(p[1..], ctx)
    else
      var rest :- Render(p[1..], ctx);
      Ok([p[0]] + rest)
  }

  /** The rest of a pattern after a single '{': a field up to the next '}', then more pattern. */
  function RenderAfterOpen(body: string, ctx: Context): Result<string>
    decreases |body|
  {
    var k := FirstBrace(body);
    if k == |body| then Err("expected '}' before end of string")
    else if body[k] == '{' then Err("unexpected '{' in field name")
    else
      var v :- Field(body[..k], ctx);
      var rest :- Render(body[k + 1..], ctx);
      Ok(v + rest)
  }

  /** Literal text for a pattern: every brace doubled. */
  function Escape(s: string): string
    decreases |s|
  {
    if s == [] then ""
    else (if s[0] == '{' then "{{" else if s[0] == '}' then "}}" else [s[0]]) + Escape(s[1..])
  }

  /** Round trip: an escaped text renders back to itself, whatever the context. */
  lemma {:induction false} RenderEscape(s: string, ctx: Context)
    ensures Render(Escape(s), ctx) == Ok(s)
    decreases |s|
  {
    if s != [] {
      var e := Escape(s);
      RenderEscape(s[1..], ctx);
      if s[0] == '{' || s[0] == '}' {
        assert e[2..] == Escape(s[1..]);
      } else {
        assert e[1..] == Escape(s[1..]);
      }
      assert s == [s[0]] + s[1..];
    }
  }

  lemma {:induction false} EscapeBraceFree(s: string)
    requires BraceFree(s)
    ensures Escape(s) == s
    decreases |s|
  {
    if s != [] {
      assert BraceFree(s[1..]);
      EscapeBraceFree(s[1..]);
      assert s == [s[0]] + s[1..];
    }
  }

  /** A pattern without braces is used verbatim. */
  lemma RenderBraceFree(s: string, ctx: Context)
    requires BraceFree(s)
    ensures Render(s, ctx) == Ok(s)
  {
    EscapeBraceFree(s);
    RenderEscape(s, ctx);
  }

  /** Literal text in front of a pattern is copied and the rest is rendered on its own. */
  lemma RenderText(t: string, rest: string, ctx: Context)
    requires BraceFree(t)
    ensures Render(t + rest, ctx).Ok? <==> Render(rest, ctx).Ok?
    ensures Render(t + rest, ctx).Ok? ==> Render(t + rest, ctx).value == t + Render(rest, ctx).value
  {
    RenderBraceFree(t, ctx);
    RenderConcat(t, rest, ctx);
  }


  /** A field is replaced by its formatted value and the rest is rendered on its own. */
  lemma RenderField(f: string, rest: string, ctx: Context)
    requires BraceFree(f)
    ensures Render("{" + f + "}" + rest, ctx).Ok? <==> Field(f, ctx).Ok? && Render(rest, ctx).Ok?
    ensures Render("{" + f + "}" + rest, ctx).Ok? ==>
              Render("{" + f + "}" + rest, ctx).value == Field(f, ctx).value + Render(rest, ctx).value
  {
    var p := "{" + f + "}" + rest;
    var body := p[1..];
    assert body == f + "}" + rest;
    assert body[..|f|] == f;
    assert body[|f| + 1..] == rest;
    assert |f| > 0 ==> p[1] == f[0];
    assert Render(p, ctx) == RenderAfterOpen(body, ctx);
    RenderAfterOpenAt(body, |f|, ctx);
  }

  /**
   * Rendering composes: after a prefix that renders, the rest renders on its own and
   * the two texts are concatenated.
   */
  lemma {:induction false} RenderConcat(a: string, b: string, ctx: Context)
    requires Render(a, ctx).Ok?
    ensures Render(a + b, ctx).Ok? <==> Render(b, ctx).Ok?
    ensures Render(a + b, ctx).Ok? ==> Render(a + b, ctx).value == Render(a, ctx).value + Render(b, ctx).value
    decreases |a|, 1
  {
    if a == [] {
      assert a + b == b;
    } else if |a| >= 2 && a[0] == '{' && a[1] == '{' {
      RenderConcatEscape(a, b, ctx, '{');
    } else if |a| >= 2 && a[0] == '}' && a[1] == '}' {
      RenderConcatEscape(a, b, ctx, '}');
    } else if a[0] == '{' {
      RenderConcatField(a, b, ctx);
    } else {
      RenderConcatText(a, b, ctx);
    }
  }

  /** The escape case of `RenderConcat`: a doubled brace `c` opens the prefix. */
  lemma {:induction false} RenderConcatEscape(a: string, b: string, ctx: Context, c: char)
    requires Render(a, ctx).Ok? && |a| >= 2 && a[0] == c && a[1] == c
    requires c == '{' || c == '}'
    ensures Render(a + b, ctx).Ok? <==> Render(b, ctx).Ok?
    ensures Render(a + b, ctx).Ok? ==> Render(a + b, ctx).value == Render(a, ctx).value + Render(b, ctx).value
    decreases |a|, 0
  {
    HeadSlices(a, b, 2);
    RenderConcat(a[2..], b, ctx);
    LeadConcat([c], Render(a[2..], ctx), Render(b, ctx), Render(a[2..] + b, ctx), Render(a, ctx), Render(a + b, ctx));
  }

  /** The literal case of `RenderConcat`: a character other than a brace opens the prefix. */
  lemma {:induction false} RenderConcatText(a: string, b: string, ctx: Context)
    requires Render(a, ctx).Ok? && a != [] && !IsBrace(a[0])
    ensures Render(a + b, ctx).Ok? <==> Render(b, ctx).Ok?
    ensures Render(a + b, ctx).Ok? ==> Render(a + b, ctx).value == Render(a, ctx).value + Render(b, ctx).value
    decreases |a|, 0
  {
    HeadSlices(a, b, 1);
    RenderConcat(a[1..], b, ctx);
    LeadConcat([a[0]], Render(a[1..], ctx), Render(b, ctx), Render(a[1..] + b, ctx), Render(a, ctx), Render(a + b, ctx));
  }

  /** The first `n` characters of `a + b` are those of `a`, and the rest is the rest of `a`, then `b`. */
  lemma HeadSlices(a: string, b: string, n: nat)
    requires n <= |a|
    ensures forall i :: 0 <= i < n ==> (a + b)[i] == a[i]
    ensures (a + b)[n..] == a[n..] + b
  {
  }

  /**
   * The bookkeeping of the escape and literal cases over plain results: a fixed text
   * `t` followed by `x`, against `t` followed by `xy`, where `xy` is `x` followed by `y`.
   */
  lemma LeadConcat(t: string, x: Result<string>, y: Result<string>, xy: Result<string>,
                   short: Result<string>, long: Result<string>)
    requires x.Ok? && (xy.Ok? <==> y.Ok?) && (xy.Ok? ==> xy.value == x.value + y.value)
    requires short.Ok? <==> x.Ok?
    requires short.Ok? ==> short.value == t + x.value
    requires long.Ok? <==> xy.Ok?
    requires long.Ok? ==> long.value == t + xy.value
    ensures long.Ok? <==> y.Ok?
    ensures long.Ok? ==> long.value == short.value + y.value
  {
    if long.Ok? {
      assert t + (x.value + y.value) == (t + x.value) + y.value;
    }
  }

  /** The field case of `RenderConcat`: a single '{' opens the prefix. */
  lemma {:induction false} RenderConcatField(a: string, b: string, ctx: Context)
    requires Render(a, ctx).Ok? && a != [] && a[0] == '{'
    requires !(|a| >= 2 && a[1] == '{')
    ensures Render(a + b, ctx).Ok? <==> Render(b, ctx).Ok?
    ensures Render(a + b, ctx).Ok? ==> Render(a + b, ctx).value == Render(a, ctx).value + Render(b, ctx).value
    decreases |a|, 0
  {
    var p := a + b;
    assert Render(a, ctx) == RenderAfterOpen(a[1..], ctx);
    assert |a| >= 2;
    assert p[0] == '{' && p[1] == a[1];
    assert p[1..] == a[1..] + b;
    assert Render(p, ctx) == RenderAfterOpen(a[1..] + b, ctx);
    RenderAfterOpenConcat(a[1..], b, ctx);
  }

  /** `RenderConcat` for the text after a single '{': the field closes inside `body`. */
  lemma {:induction false} RenderAfterOpenConcat(body: string, b: string, ctx: Context)
    requires RenderAfterOpen(body, ctx).Ok?
    ensures RenderAfterOpen(body + b, ctx).Ok? <==> Render(b, ctx).Ok?
    ensures RenderAfterOpen(body + b, ctx).Ok? ==>
              RenderAfterOpen(body + b, ctx).value == RenderAfterOpen(body, ctx).value + Render(b, ctx).value
    decreases |body|, 0
  {
    var k := FirstBrace(body);
    FirstBraceConcat(body, b);
    ConcatSlices(body, b, k);
    RenderConcat(body[k + 1..], b, ctx);
    ThenConcat(Field(body[..k], ctx), Render(body[k + 1..], ctx), Render(b, ctx),
               Render(body[k + 1..] + b, ctx), RenderAfterOpen(body, ctx), RenderAfterOpen(body + b, ctx));
  }

  /** A brace found inside `body` is still the first one once more text follows. */
  lemma FirstBraceConcat(body: string, b: string)
    requires FirstBrace(body) < |body|
    ensures FirstBrace(body + b) == FirstBrace(body)
  {
    var k := FirstBrace(body);
    FirstBraceFromSpec(body, 0);
    var p := body + b;
    assert forall j :: 0 <= j <= k ==> p[j] == body[j];
    FirstBraceFromAt(p, 0, k);
  }

  /** How the pieces of `body + b` around index `k` of `body` relate to those of `body`. */
  lemma ConcatSlices(body: string, b: string, k: nat)
    requires k < |body|
    ensures (body + b)[k] == body[k]
    ensures (body + b)[..k] == body[..k]
    ensures (body + b)[k + 1..] == body[k + 1..] + b
  {
  }

  /**
   * The bookkeeping of `RenderAfterOpenConcat` over plain results: a field value `f`
   * followed by `x`, against `f` followed by `xy`, where `xy` is `x` followed by `y`.
   */
  lemma ThenConcat(f: Result<string>, x: Result<string>, y: Result<string>, xy: Result<string>,
                   short: Result<string>, long: Result<string>)
    requires x.Ok? && (xy.Ok? <==> y.Ok?) && (xy.Ok? ==> xy.value == x.value + y.value)
    requires short.Ok? <==> f.Ok? && x.Ok?
    requires short.Ok? ==> short.value == f.value + x.value
    requires long.Ok? <==> f.Ok? && xy.Ok?
    requires long.Ok? ==> long.value == f.value + xy.value
    requires short.Ok?
    ensures long.Ok? <==> y.Ok?
    ensures long.Ok? ==> long.value == short.value + y.value
  {
    if long.Ok? {
      assert f.value + (x.value + y.value) == (f.value + x.value) + y.value;
    }
  }

  /** After a single '{', a field closed by the '}' at index k is rendered and the rest follows. */
  lemma RenderAfterOpenAt(body: string, k: nat, ctx: Context)
    requires k < |body| && body[k] == '}' && BraceFree(body[..k])
    ensures RenderAfterOpen(body, ctx).Ok? <==> Field(body[..k], ctx).Ok? && Render(body[k + 1..], ctx).Ok?
    ensures RenderAfterOpen(body, ctx).Ok? ==>
              RenderAfterOpen(body, ctx).value == Field(body[..k], ctx).value + Render(body[k + 1..], ctx).value
  {
    FirstBraceAt(body, k);
  }

  /** A field whose name is not one of the four fails, like Python's KeyError. */
  lemma UnknownFieldFails(name: string, ctx: Context)
    requires ':' !in name
    requires name !in {"counter", "folder", "date", "orig"}
    ensures Field(name, ctx).Err?
  {
    FirstIndexNone(name, ':');
    assert name[..|name|] == name;
  }

  /**
   * The counter field with a "0N" or "0Nd" spec, for any digit string N, pads to width N
   * when N fits a `Py_ssize_t`, and is the formatting error otherwise.
   */
  lemma CounterField(w: string, ctx: Context)
    requires AllDigits(w)
    ensures Field("counter:0" + w + "d", ctx).Ok? <==> Value(w) <= MaxWidth
    ensures Field("counter:0" + w + "d", ctx).Ok? ==>
              Field("counter:0" + w + "d", ctx).value == PadNat(ctx.counter, Value(w))
    ensures Field("counter:0" + w, ctx).Ok? <==> Value(w) <= MaxWidth
    ensures Field("counter:0" + w, ctx).Ok? ==>
              Field("counter:0" + w, ctx).value == PadNat(ctx.counter, Value(w))
  {
    CounterFieldD("counter:0" + w + "d", w, ctx);
    CounterFieldPlain("counter:0" + w, w, ctx);
  }

  /** The field text `counter:0` + N + `d`, given as `f`, is the counter zero-padded by N. */
  lemma CounterFieldD(f: string, w: string, ctx: Context)
    requires AllDigits(w) && f == "counter:0" + w + "d"
    ensures Field(f, ctx) == ZeroPadded(ctx.counter, w)
  {
    var spec := "0" + w + "d";
    assert f == "counter:" + spec;
    CounterSpec(spec, ctx);
    FormatZeroWidthD(ctx.counter, w);
  }

  /** The field text `counter:0` + N, given as `f`, is the counter zero-padded by N. */
  lemma CounterFieldPlain(f: string, w: string, ctx: Context)
    requires AllDigits(w) && f == "counter:0" + w
    ensures Field(f, ctx) == ZeroPadded(ctx.counter, w)
  {
    var spec := "0" + w;
    assert f == "counter:" + spec;
    CounterSpec(spec, ctx);
    FormatZeroWidth(ctx.counter, w);
  }

  /** The spec "0" + N + "d" zero-pads by N. */
  lemma FormatZeroWidthD(n: nat, w: string)
    requires AllDigits(w)
    ensures FormatInt(n, "0" + w + "d") == ZeroPadded(n, w)
  {
    var spec := "0" + w + "d";
    assert spec != "" && spec != "d" && spec[0] == '0' && spec[|spec| - 1] == 'd';
    assert spec[1..|spec| - 1] == w;
  }

  /** The spec "0" + N zero-pads by N. */
  lemma FormatZeroWidth(n: nat, w: string)
    requires AllDigits(w)
    ensures FormatInt(n, "0" + w) == ZeroPadded(n, w)
  {
    var spec := "0" + w;
    assert spec != "" && spec[0] == '0';
    assert spec != "d";
    if w == [] {
      assert spec[|spec| - 1] == '0';
    } else {
      assert spec[|spec| - 1] == w[|w| - 1];
      assert IsDigit(w[|w| - 1]);
    }
    assert spec[1..] == w;
  }


}
