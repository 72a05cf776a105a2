/**
 * The timestamp resolver (`exif_datetime`) and the day key derived from a date
 * (`strftime('%Y%m%d')`). The date parser `datetime.fromisoformat` belongs to the
 * standard library and is a parameter here.
 */
module Timestamp {
  import opened Wrappers
  import opened Text

  /** The calendar part of a `datetime`; the time of day plays no role in naming. */
  datatype Date = Date(year: nat, month: nat, day: nat)

  /** Field ranges within which the day key is a faithful encoding of the date. */
  predicate InKeyRange(d: Date) {
    d.year < 10000 && d.month < 100 && d.day < 100
  }

  /** `dt.strftime('%Y%m%d')`: four-digit year, two-digit month and day. */
  function DayKey(d: Date): (k: string)
    ensures AllDigits(k) && |k| >= 8
  {
    PadNat(d.year, 4) + PadNat(d.month, 2) + PadNat(d.day, 2)
  }

  lemma DayKeyShape(d: Date)
    requires InKeyRange(d)
    ensures |DayKey(d)| == 8 && AllDigits(DayKey(d))
    ensures DayKey(d)[..4] == PadNat(d.year, 4)
    ensures DayKey(d)[4..6] == PadNat(d.month, 2)
    ensures DayKey(d)[6..] == PadNat(d.day, 2)
  {
    PadNatExactWidth(d.year, 4);
    PadNatExactWidth(d.month, 2);
    PadNatExactWidth(d.day, 2);
  }

  /** Two dates share a day key (and so a counter) exactly when they are the same calendar day. */
  lemma DayKeyInjective(a: Date, b: Date)
    requires InKeyRange(a) && InKeyRange(b)
    ensures DayKey(a) == DayKey(b) <==> a == b
  {
    if DayKey(a) == DayKey(b) {
      DayKeyShape(a);
      DayKeyShape(b);
      PadNatInjective(a.year, b.year, 4);
      PadNatInjective(a.month, b.month, 2);
      PadNatInjective(a.day, b.day, 2);
    }
  }

  /** An EXIF value: Pillow hands back strings for text tags and other types otherwise. */
  datatype ExifValue = Text(text: string) | NonText

  /** One item of `img.getexif().items()`, its key already mapped through `ExifTags.TAGS`. */
  datatype ExifEntry = ExifEntry(tag: string, value: ExifValue)

  predicate IsDateTimeOriginal(e: ExifEntry) {
    e.tag == "DateTimeOriginal" && e.value.Text?
  }

  /** The value of the first string-valued "DateTimeOriginal" entry, if any. */
  function DateTimeOriginal(exif: seq<ExifEntry>): (r: Option<string>)
    ensures r.None? <==> forall i :: 0 <= i < |exif| ==> !IsDateTimeOriginal(exif[i])
    ensures r.Some? ==> exists i :: 0 <= i < |exif| && exif[i] == ExifEntry("DateTimeOriginal", Text(r.value))
                                    && forall j :: 0 <= j < i ==> !IsDateTimeOriginal(exif[j])
    decreases |exif|
  {
    if exif == [] then None
    else if IsDateTimeOriginal(exif[0]) then Some(exif[0].value.text)
    else
      var r := DateTimeOriginal(exif[1..]);
      assert forall i :: 1 <= i < |exif| ==> exif[i] == exif[1..][i - 1];
      r
  }

  /** The loop over `exif.items()` that stops at the first matching entry. */
  method FindDateTimeOriginal(exif: seq<ExifEntry>) returns (r: Option<string>)
    ensures r == DateTimeOriginal(exif)
  {
    var i := 0;
    while i < |exif|
      invariant 0 <= i <= |exif|
      invariant DateTimeOriginal(exif[i..]) == DateTimeOriginal(exif)
    {
      assert exif[i..][0] == exif[i] && exif[i..][1..] == exif[i + 1..];
      if IsDateTimeOriginal(exif[i]) {
        return Some(exif[i].value.text);
      }
      i := i + 1;
    }
    assert exif[i..] == [];
    return None;
  }

  /** EXIF writes "YYYY:MM:DD HH:MM:SS"; the first two colons become dashes before parsing. */
  function ExifToIso(v: string): string {
    ReplaceFirst(v, ':', '-', 2)
  }

  /** The date tier 1 yields: the first DateTimeOriginal value, when the parser accepts it. */
  function ExifDate(exif: seq<ExifEntry>, parse: string -> Option<Date>): Option<Date> {
    match DateTimeOriginal(exif)
    case None => None
    case Some(v) => parse(ExifToIso(v))
  }

  /** Which fallback produced the date. */
  datatype Tier = FromExif | FromMtime | FromClock

  datatype Resolved = Resolved(date: Date, tier: Tier)

  /** First success wins: EXIF, then the file's modification time, then the clock. */
  function ResolveDate(exif: seq<ExifEntry>, parse: string -> Option<Date>, mtime: Option<Date>, now: Date): Resolved {
    match ExifDate(exif, parse)
    case Some(d) => Resolved(d, FromExif)
    case None => if mtime.Some? then Resolved(mtime.value, FromMtime) else Resolved(now, FromClock)
  }

  /**
   * First success wins: once EXIF yields a date, neither the modification time nor
   * the clock matters; once the modification time is known, the clock does not.
   */
  lemma EarlierTierWins(exif: seq<ExifEntry>, parse: string -> Option<Date>,
                        mtime: Option<Date>, now: Date, mtime': Option<Date>, now': Date)
    ensures ExifDate(exif, parse).Some? ==>
              ResolveDate(exif, parse, mtime, now) == ResolveDate(exif, parse, mtime', now')
    ensures mtime.Some? ==>
              ResolveDate(exif, parse, mtime, now) == ResolveDate(exif, parse, mtime, now')
    ensures ResolveDate(exif, parse, mtime, now).tier == FromClock ==>
              ResolveDate(exif, parse, mtime, now').date == now'
  {
  }

  /**
   * `exif_datetime`: never fails. `mtime` is None when stat or the conversion of its
   * timestamp fails; `now` is the clock reading.
   */
  method ExifDatetime(exif: seq<ExifEntry>, parse: string -> Option<Date>, mtime: Option<Date>, now: Date)
    returns (r: Resolved)
    ensures r == ResolveDate(exif, parse, mtime, now)
    ensures r.tier == FromExif <==> ExifDate(exif, parse).Some?
    ensures r.tier == FromExif ==> Some(r.date) == ExifDate(exif, parse)
    ensures r.tier == FromMtime <==> ExifDate(exif, parse).None? && mtime.Some?
    ensures r.tier == FromMtime ==> Some(r.date) == mtime
    ensures r.tier == FromClock <==> ExifDate(exif, parse).None? && mtime.None?
    ensures r.tier == FromClock ==> r.date == now
  {
    var tag := FindDateTimeOriginal(exif);
    if tag.Some? {
      var parsed := parse(ExifToIso(tag.value));
      if parsed.Some? {
        return Resolved(parsed.value, FromExif);
      }
    }
    if mtime.Some? {
      return Resolved(mtime.value, FromMtime);
    }
    return Resolved(now, FromClock);
  }
}
