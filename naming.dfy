/**
 * The name builder (`_build_base_name`): bump the per-day counter, render the
 * user's pattern, and fall back to `folder_date_counter` when rendering fails
 * or yields an empty name.
 */
module Naming {
  import opened Wrappers
  import opened Text
  import opened PathNames
  import opened Timestamp
  import opened Template

  /** The pattern the configuration uses unless the user gives another. */
  const DefaultPattern: string := "{folder}_{date}_{counter:03d}"

  /** `f"{parent_name}_{day_key}_{counter:03d}"` */
  function Fallback(ctx: Context): string {
    ctx.folder + "_" + ctx.date + "_" + PadNat(ctx.counter, 3)
  }

  /** Fallback names for one folder and day are equal exactly when their counters are. */
  lemma FallbackInjective(a: Context, b: Context)
    requires a.folder == b.folder && a.date == b.date
    ensures Fallback(a) == Fallback(b) <==> a.counter == b.counter
  {
    var head := a.folder + "_" + a.date + "_";
    assert Fallback(a) == head + PadNat(a.counter, 3);
    assert Fallback(b) == head + PadNat(b.counter, 3);
    if Fallback(a) == Fallback(b) {
      assert PadNat(a.counter, 3) == Fallback(a)[|head|..];
      assert PadNat(b.counter, 3) == Fallback(b)[|head|..];
      PadNatInjective(a.counter, b.counter, 3);
    }
  }

  /** The rendered pattern when it renders to a non-empty name, the fallback otherwise. */
  function BaseName(pattern: string, ctx: Context): (r: string)
    ensures r != []
    ensures Render(pattern, ctx).Ok? && Render(pattern, ctx).value != [] ==> r == Render(pattern, ctx).value
    ensures Render(pattern, ctx).Err? || Render(pattern, ctx).value == [] ==> r == Fallback(ctx)
  {
    match Render(pattern, ctx)
    case Ok(s) => if s != [] then s else Fallback(ctx)
    case Err(_) => Fallback(ctx)
  }

  /** The counter a map holds for a day; an absent day counts as 0 (`setdefault(day_key, 0)`). */
  function Count(counters: map<string, nat>, key: string): nat {
    if key in counters then counters[key] else 0
  }

  /**
   * `_build_base_name`. The counters dictionary, which the source updates in place,
   * comes in as `counters` and goes out as `next`.
   */
  method BuildBaseName(pattern: string, srcName: string, parentName: string,
                       counters: map<string, nat>, date: Date)
    returns (base: string, next: map<string, nat>)
    ensures next == counters[DayKey(date) := Count(counters, DayKey(date)) + 1]
    ensures next.Keys == counters.Keys + {DayKey(date)}
    ensures next[DayKey(date)] == Count(counters, DayKey(date)) + 1
    ensures forall k :: k in counters && k != DayKey(date) ==> next[k] == counters[k]
    ensures base == BaseName(pattern, Context(parentName, DayKey(date), next[DayKey(date)], Stem(srcName)))
    ensures base != []
  {
    var dayKey := DayKey(date);
    next := if dayKey in counters then counters else counters[dayKey := 0];
    next := next[dayKey := next[dayKey] + 1];
    assert next == counters[dayKey := Count(counters, dayKey) + 1];
    Bump(counters, dayKey);
    base := BaseName(pattern, Context(parentName, dayKey, next[dayKey], Stem(srcName)));
  }

  /** Bumping one day's counter adds that day if absent and leaves every other day alone. */
  lemma Bump(counters: map<string, nat>, key: string)
    ensures counters[key := Count(counters, key) + 1].Keys == counters.Keys + {key}
    ensures forall k :: k in counters && k != key ==> counters[key := Count(counters, key) + 1][k] == counters[k]
  {
  }

  /** A field that formats to `v` followed by a rest that renders to `w` renders to `v + w`. */
  lemma RenderFieldOk(f: string, rest: string, ctx: Context, v: string, w: string)
    requires BraceFree(f) && Field(f, ctx) == Ok(v) && Render(rest, ctx) == Ok(w)
    ensures Render("{" + f + "}" + rest, ctx) == Ok(v + w)
  {
    RenderField(f, rest, ctx);
  }

  /** Brace-free text followed by a rest that renders to `w` renders to the text followed by `w`. */
  lemma RenderTextOk(t: string, rest: string, ctx: Context, w: string)
    requires BraceFree(t) && Render(rest, ctx) == Ok(w)
    ensures Render(t + rest, ctx) == Ok(t + w)
  {
    RenderText(t, rest, ctx);
  }

  /** A separator, then a field, then a rest. */
  lemma SepFieldOk(sep: string, f: string, rest: string, ctx: Context, v: string, w: string)
    requires BraceFree(sep) && BraceFree(f) && Field(f, ctx) == Ok(v) && Render(rest, ctx) == Ok(w)
    ensures Render(sep + ("{" + f + "}" + rest), ctx) == Ok(sep + (v + w))
  {
    RenderFieldOk(f, rest, ctx, v, w);
    RenderTextOk(sep, "{" + f + "}" + rest, ctx, v + w);
  }

  /*
   * Several lemmas below (down to `DefaultPatternSplit`) take the literal pieces of
   * the default pattern as parameters that a `requires` fixes to those literals. This
   * keeps each proof small: the verifier reasons about one short literal at a time
   * instead of unfolding the whole pattern text in every step.
   */

  /** The field of the default pattern's counter: `counter:03d` pads to three digits. */
  lemma ThreeDigitCounterField(counter: string, ctx: Context)
    requires counter == "counter:03d"
    ensures BraceFree(counter) && Field(counter, ctx) == Ok(PadNat(ctx.counter, 3))
  {
    ThreeDigitLiteral(counter);
    CounterSpec("03d", ctx);
    FormatThreeDigits(ctx.counter);
  }

  /** The counter field's text contains no brace and splits as name, colon and spec. */
  lemma ThreeDigitLiteral(counter: string)
    requires counter == "counter:03d"
    ensures BraceFree(counter) && counter == "counter:" + "03d"
  {
  }

  /** The spec `03d` pads to width 3. */
  lemma FormatThreeDigits(n: nat)
    ensures FormatInt(n, "03d") == Ok(PadNat(n, 3))
  {
    var spec := "03d";
    var width := spec[1..|spec| - 1];
    assert width == "3";
    assert Value(width) == 3 by {
      assert width[..0] == [];
    }
  }

  /** The literal pieces of the default pattern: brace-free, and the three field names. */
  lemma DefaultLiterals(folder: string, date: string, sep: string, ctx: Context)
    requires folder == "folder" && date == "date" && sep == "_"
    ensures BraceFree(folder) && BraceFree(date) && BraceFree(sep)
    ensures Field(folder, ctx) == Ok(ctx.folder) && Field(date, ctx) == Ok(ctx.date)
  {
    PlainField(date, ctx);
    PlainField(folder, ctx);
  }

  /** Three fields separated by a literal text render to their three values so separated. */
  lemma RenderThreeFields(ctx: Context, f1: string, f2: string, f3: string, sep: string,
                          v1: string, v2: string, v3: string, p: string)
    requires p == "{" + f1 + "}" + (sep + ("{" + f2 + "}" + (sep + ("{" + f3 + "}" + ""))))
    requires BraceFree(f1) && BraceFree(f2) && BraceFree(f3) && BraceFree(sep)
    requires Field(f1, ctx) == Ok(v1) && Field(f2, ctx) == Ok(v2) && Field(f3, ctx) == Ok(v3)
    ensures Render(p, ctx) == Ok(v1 + (sep + (v2 + (sep + (v3 + "")))))
  {
    SepFieldOk(sep, f3, "", ctx, v3, "");
    var inner1 := sep + ("{" + f3 + "}" + "");
    SepFieldOk(sep, f2, inner1, ctx, v2, sep + (v3 + ""));
    var inner2 := sep + ("{" + f2 + "}" + inner1);
    RenderFieldOk(f1, inner2, ctx, v1, sep + (v2 + (sep + (v3 + ""))));
  }

  /** The default pattern, assembled from its pieces, renders to the fallback form. */
  lemma RenderDefaultPieces(ctx: Context, folder: string, date: string, counter: string, sep: string, p: string)
    requires folder == "folder" && date == "date" && counter == "counter:03d" && sep == "_"
    requires p == "{" + folder + "}" + (sep + ("{" + date + "}" + (sep + ("{" + counter + "}" + ""))))
    ensures Render(p, ctx) == Ok(Fallback(ctx))
  {
    ThreeDigitCounterField(counter, ctx);
    DefaultLiterals(folder, date, sep, ctx);
    var pad := PadNat(ctx.counter, 3);
    RenderThreeFields(ctx, folder, date, counter, sep, ctx.folder, ctx.date, pad, p);
    assert pad + "" == pad;
    assert ctx.folder + (sep + (ctx.date + (sep + pad))) == Fallback(ctx);
  }

  /** The default pattern renders exactly to the fallback name, so the two schemes agree. */
  lemma DefaultPatternIsFallback(ctx: Context)
    ensures Render(DefaultPattern, ctx) == Ok(Fallback(ctx))
    ensures BaseName(DefaultPattern, ctx) == Fallback(ctx)
  {
    var folder, date, counter, sep := "folder", "date", "counter:03d", "_";
    DefaultPatternSplit(folder, date, counter, sep);
    RenderDefaultPieces(ctx, folder, date, counter, sep, DefaultPattern);
  }

  /** The default pattern is three replacement fields separated by `_`. */
  lemma DefaultPatternSplit(folder: string, date: string, counter: string, sep: string)
    requires folder == "folder" && date == "date" && counter == "counter:03d" && sep == "_"
    ensures DefaultPattern == "{" + folder + "}" + (sep + ("{" + date + "}" + (sep + ("{" + counter + "}" + ""))))
  {
  }

  /**
   * An unknown placeholder gives the fallback, never an error, wherever it stands: after
   * any prefix that renders and before any rest.
   */
  lemma UnknownPlaceholderFallsBack(prefix: string, name: string, rest: string, ctx: Context)
    requires Render(prefix, ctx).Ok?
    requires BraceFree(name) && ':' !in name
    requires name !in {"counter", "folder", "date", "orig"}
    ensures BaseName(prefix + ("{" + name + "}" + rest), ctx) == Fallback(ctx)
  {
    UnknownFieldFails(name, ctx);
    RenderField(name, rest, ctx);
    RenderConcat(prefix, "{" + name + "}" + rest, ctx);
  }

  /** A counter width too large for a `Py_ssize_t` makes formatting fail, so the name falls back. */
  lemma TooWideCounterFallsBack(w: string, ctx: Context)
    requires AllDigits(w) && Value(w) > MaxWidth
    ensures BaseName("{counter:0" + w + "d}", ctx) == Fallback(ctx)
  {
    var f := "counter:0" + w + "d";
    TooWideField(f, w, ctx);
    RenderField(f, "", ctx);
    WrapField(f, w);
  }

  /** The field text of a too-wide counter: brace-free, and its formatting fails. */
  lemma TooWideField(f: string, w: string, ctx: Context)
    requires AllDigits(w) && Value(w) > MaxWidth && f == "counter:0" + w + "d"
    ensures BraceFree(f) && Field(f, ctx).Err?
  {
    CounterFieldD(f, w, ctx);
    CounterTextBraceFree(f, w);
  }

  /** A counter field text with a digit width contains no brace. */
  lemma CounterTextBraceFree(f: string, w: string)
    requires AllDigits(w) && f == "counter:0" + w + "d"
    ensures BraceFree(f)
  {
    forall i | 0 <= i < |f|
      ensures !IsBrace(f[i])
    {
      if 9 <= i < 9 + |w| {
        assert f[i] == w[i - 9];
      }
    }
  }

  /** Bracing the field text gives the pattern. */
  lemma WrapField(f: string, w: string)
    requires f == "counter:0" + w + "d"
    ensures "{counter:0" + w + "d}" == "{" + f + "}" + ""
  {
  }

  /** For instance `{folder}_{foo}` falls back although its first field is known. */
  lemma UnknownAfterKnownFallsBack(ctx: Context)
    ensures BaseName("{folder}_{foo}", ctx) == Fallback(ctx)
  {
    var prefix, name := "{folder}_", "foo";
    FolderPrefixRenders(prefix, ctx);
    FooIsUnknown(name);
    assert "{folder}_{foo}" == prefix + ("{" + name + "}" + "");
    UnknownPlaceholderFallsBack(prefix, name, "", ctx);
  }

  /** `foo` is a field name without braces or colon that the context does not know. */
  lemma FooIsUnknown(name: string)
    requires name == "foo"
    ensures BraceFree(name) && ':' !in name
    ensures name !in {"counter", "folder", "date", "orig"}
  {
  }

  /** The prefix `{folder}_` renders. */
  lemma FolderPrefixRenders(prefix: string, ctx: Context)
    requires prefix == "{folder}_"
    ensures Render(prefix, ctx).Ok?
  {
    assert prefix == "{" + "folder" + "}" + "_";
    PlainField("folder", ctx);
    RenderBraceFree("_", ctx);
    RenderField("folder", "_", ctx);
  }

  /** A pattern with an unclosed brace gives the fallback. */
  lemma UnclosedBraceFallsBack(text: string, ctx: Context)
    requires BraceFree(text)
    ensures BaseName("{" + text, ctx) == Fallback(ctx)
  {
    var p := "{" + text;
    assert p[1..] == text;
    assert text[..|text|] == text;
    FirstBraceAt(text, |text|);
    assert |p| >= 2 ==> p[1] == text[0];
    assert Render(p, ctx) == RenderAfterOpen(text, ctx);
  }
}
