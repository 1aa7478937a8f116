/**
 * The pure helpers of www/js/util.js: `util.toString`, `util.dateToCode`, and the local file
 * name `util.export_file` derives from a remote file name and the current date.
 */
module ExportName {
  import opened Options
  import opened Decimal

  /** The values `util.toString` is given in this program. */
  datatype JsValue = JsNull | JsUndefined | JsString(s: string) | JsInt(i: int) | JsBool(b: bool)

  /** `util.toString`: '' for null and undefined, otherwise the value's string form. */
  function ToString(v: JsValue): (r: string)
    ensures v.JsNull? || v.JsUndefined? ==> r == ""
    ensures v.JsString? ==> r == v.s
    ensures v.JsInt? ==> ParseInt(r) == Some(v.i)
    ensures r == "" <==> v.JsNull? || v.JsUndefined? || v == JsString("")
  {
    match v
    case JsNull => ""
    case JsUndefined => ""
    case JsString(s) => s
    case JsInt(i) => IntToStringRoundTrip(i); IntToString(i)
    case JsBool(b) => if b then "true" else "false"
  }

  // ------------------------------------------------------------------ dates

  /** The local-time fields `util.dateToCode` reads; the month is 0-based as `getMonth` gives it. */
  datatype LocalDate = LocalDate(year: int, month: nat, day: nat, hours: nat, minutes: nat, seconds: nat, millis: nat)

  /** The ranges a `Date` object's getters return. */
  predicate IsDate(d: LocalDate) {
    d.month < 12 && 1 <= d.day <= 31 && d.hours < 24 && d.minutes < 60 && d.seconds < 60 && d.millis < 1000
  }

  /** `pad`: a single leading '0' below 10, the plain number otherwise. */
  function Pad(n: nat): (s: string)
    ensures n < 100 ==> |s| == 2 && AllDigits(s) && DigitsValue(s) == n
  {
    if n < 10 then
      var s := "0" + NatToString(n);
      assert s[..1] == "0" && s[..1][..0] == [];
      assert DigitsValue(s[..1]) == 0;
      assert s[1] == DigitChar(n);
      s
    else
      NatToStringRoundTrip(n);
      NatToString(n)
  }

  /** `(ms / 1000).toFixed(3).slice(2, 5)`: the milliseconds as exactly three digits. */
  function Millis3(ms: nat): (s: string)
    requires ms < 1000
    ensures |s| == 3 && AllDigits(s) && DigitsValue(s) == ms
  {
    var h, t, u := ms / 100, ms / 10 % 10, ms % 10;
    assert ms / 10 == h * 10 + t && ms == ms / 10 * 10 + u;
    var s := [DigitChar(h), DigitChar(t), DigitChar(u)];
    assert s[..2][..1] == s[..1] && s[..1][..0] == [];
    assert DigitsValue(s[..1]) == h;
    assert DigitsValue(s[..2]) == h * 10 + t;
    s
  }

  /** Length of everything after the year: "-MM-DD_hh:mm:ss.mmm". */
  const DateTailLength := 19

  /** Two-character fields and a three-character one joined with the separators "-", "-", "_", ":", ":" and ".". */
  function TailLayout(mo: string, dd: string, hh: string, mi: string, ss: string, ms: string): (t: string)
    requires |mo| == 2 && |dd| == 2 && |hh| == 2 && |mi| == 2 && |ss| == 2 && |ms| == 3
    ensures |t| == DateTailLength
    ensures t[0] == '-' && t[3] == '-' && t[6] == '_' && t[9] == ':' && t[12] == ':' && t[15] == '.'
    ensures t[1..3] == mo && t[4..6] == dd && t[7..9] == hh && t[10..12] == mi && t[13..15] == ss && t[16..19] == ms
  {
    var t := "-" + mo + "-" + dd + "_" + hh + ":" + mi + ":" + ss + "." + ms;
    assert t[16..19] == ms;
    assert t[..15] == "-" + mo + "-" + dd + "_" + hh + ":" + mi + ":" + ss;
    assert t[..9] == "-" + mo + "-" + dd + "_" + hh;
    t
  }

  /** "-MM-DD_hh:mm:ss.mmm", the part of the code after the year. */
  function DateTail(d: LocalDate): (t: string)
    requires IsDate(d)
    ensures |t| == DateTailLength
    ensures t[0] == '-' && t[3] == '-' && t[6] == '_' && t[9] == ':' && t[12] == ':' && t[15] == '.'
  {
    TailLayout(Pad(d.month + 1), Pad(d.day), Pad(d.hours), Pad(d.minutes), Pad(d.seconds), Millis3(d.millis))
  }

  /** `util.dateToCode`: "YYYY-MM-DD_hh:mm:ss.mmm" in local time, the year unpadded. */
  function DateToCode(d: LocalDate): (code: string)
    requires IsDate(d)
    ensures |code| == |IntToString(d.year)| + DateTailLength
    ensures code[..|IntToString(d.year)|] == IntToString(d.year)
    ensures code[|IntToString(d.year)|..] == DateTail(d)
  {
    IntToString(d.year) + DateTail(d)
  }

  /** Reads the fields back out of a date tail, each at its fixed place between its separators. */
  function ParseTail(t: string): Option<(nat, nat, nat, nat, nat, nat)>
  {
    if |t| != DateTailLength then None
    else if !(t[0] == '-' && t[3] == '-' && t[6] == '_' && t[9] == ':' && t[12] == ':' && t[15] == '.') then None
    else
      var fields := [t[1..3], t[4..6], t[7..9], t[10..12], t[13..15], t[16..19]];
      if forall i :: 0 <= i < |fields| ==> AllDigits(fields[i]) then
        Some((DigitsValue(fields[0]), DigitsValue(fields[1]), DigitsValue(fields[2]),
              DigitsValue(fields[3]), DigitsValue(fields[4]), DigitsValue(fields[5])))
      else None
  }

  lemma TailRoundTrip(d: LocalDate)
    requires IsDate(d)
    ensures ParseTail(DateTail(d)) == Some((d.month + 1, d.day, d.hours, d.minutes, d.seconds, d.millis))
  {
    var t := DateTail(d);
    assert t[1..3] == Pad(d.month + 1) && t[4..6] == Pad(d.day) && t[7..9] == Pad(d.hours);
    assert t[10..12] == Pad(d.minutes) && t[13..15] == Pad(d.seconds) && t[16..19] == Millis3(d.millis);
  }

  /** Reads a date code back: the year before the fixed-width tail, then the tail's fields. */
  function ParseDateCode(code: string): Option<LocalDate>
  {
    if |code| < DateTailLength then None
    else
      var n := |code| - DateTailLength;
      match (ParseInt(code[..n]), ParseTail(code[n..]))
      case (Some(year), Some((month, day, hours, minutes, seconds, millis))) =>
        if month >= 1 then Some(LocalDate(year, month - 1, day, hours, minutes, seconds, millis)) else None
      case _ => None
  }

  /** Every field of the date can be read back out of its code, so distinct dates get distinct codes. */
  lemma DateCodeRoundTrip(d: LocalDate)
    requires IsDate(d)
    ensures ParseDateCode(DateToCode(d)) == Some(d)
  {
    IntToStringRoundTrip(d.year);
    TailRoundTrip(d);
  }

  // ------------------------------------------------------------- file names

  /** `lastIndexOf(c)`: the index of the last `c`, or -1. */
  function LastIndexOf(s: string, c: char): (r: int)
    ensures -1 <= r < |s|
    ensures r >= 0 ==> s[r] == c && c !in s[r + 1..]
    ensures r == -1 <==> c !in s
  {
    if s == [] then -1
    else if s[|s| - 1] == c then |s| - 1
    else
      var r := LastIndexOf(s[..|s| - 1], c);
      assert s[r + 1..] == s[..|s| - 1][r + 1..] + [s[|s| - 1]];
      r
  }

  /** `s.split(c).pop()`: the text after the last `c`, or all of `s`. */
  function AfterLast(s: string, c: char): (r: string)
    ensures c !in r && |r| <= |s| && r == s[|s| - |r|..]
    ensures c !in s ==> r == s
    ensures c in s ==> |r| < |s| && s[|s| - |r| - 1] == c
  {
    s[LastIndexOf(s, c) + 1..]
  }

  /**
   * The path stripped: the text after the last backslash, then after the last slash. The result
   * is the longest separator-free suffix of the path.
   */
  function StripPath(path: string): (name: string)
    ensures '/' !in name && '\\' !in name
    ensures |name| <= |path| && name == path[|path| - |name|..]
    ensures |name| < |path| ==> path[|path| - |name| - 1] == '/' || path[|path| - |name| - 1] == '\\'
    ensures '/' !in path && '\\' !in path ==> name == path
  {
    CutsRemoveBoth(path, '\\', '/');
    CutIsSuffix(path, '\\', '/');
    CutAtSeparator(path, '\\', '/');
    AfterLast(AfterLast(path, '\\'), '/')
  }

  /** Cutting after the last `c` and then after the last `d` leaves a suffix. */
  lemma CutIsSuffix(s: string, c: char, d: char)
    ensures var v := AfterLast(AfterLast(s, c), d); |v| <= |s| && v == s[|s| - |v|..]
  {
    var u := AfterLast(s, c);
    SuffixStep(s, |s| - |u|, |u| - |AfterLast(u, d)|);
  }

  /** The second cut keeps out what the first cut removed. */
  lemma CutsRemoveBoth(s: string, c: char, d: char)
    ensures var v := AfterLast(AfterLast(s, c), d); c !in v && d !in v
  {
  }

  /** What the two cuts leave is the whole input, or it follows a `c` or a `d`. */
  lemma CutAtSeparator(s: string, c: char, d: char)
    ensures var v := AfterLast(AfterLast(s, c), d);
      |v| < |s| ==> s[|s| - |v| - 1] == c || s[|s| - |v| - 1] == d
  {
    var u := AfterLast(s, c);
    var v := AfterLast(u, d);
    var k, m := |s| - |u|, |u| - |v|;
    SuffixStep(s, k, m);
    if m > 0 {
      assert d in u;
    } else if k > 0 {
      assert c in s;
    }
  }

  lemma SuffixStep(s: string, k: nat, m: nat)
    requires k + m <= |s|
    ensures s[k..][m..] == s[k + m..]
    ensures m > 0 ==> s[k..][m - 1] == s[k + m - 1]
  {
  }

  /** `substring(0, lastIndexOf('.'))`: the text before the last dot, empty when there is none. */
  function BaseName(name: string): (b: string)
    ensures '.' !in name ==> b == ""
  {
    var dot := LastIndexOf(name, '.');
    if dot < 0 then "" else name[..dot]
  }

  /** `substring(lastIndexOf('.') + 1)`: the text after the last dot, all of it when there is none. */
  function Extension(name: string): (e: string)
    ensures '.' !in e && |e| <= |name| && e == name[|name| - |e|..]
    ensures '.' !in name ==> e == name
  {
    name[LastIndexOf(name, '.') + 1..]
  }

  /** A dot splits a name into its base and extension. */
  lemma BaseDotExtension(name: string)
    requires '.' in name
    ensures name == BaseName(name) + "." + Extension(name)
  {
    var dot := LastIndexOf(name, '.');
    assert name == name[..dot] + [name[dot]] + name[dot + 1..];
  }

  /** The characters `[a-z0-9_]` matches case-insensitively. */
  predicate IsWordChar(c: char) {
    'a' <= c <= 'z' || 'A' <= c <= 'Z' || '0' <= c <= '9' || c == '_'
  }

  /** What a sanitised name is made of: word characters and '-'. */
  predicate IsNameChar(c: char) {
    IsWordChar(c) || c == '-'
  }

  predicate Clean(s: string) {
    forall i :: 0 <= i < |s| ==> IsWordChar(s[i])
  }

  /** The input with its leading run of non-word characters removed. */
  function SkipRun(s: string): (r: string)
    ensures |r| <= |s| && r == s[|s| - |r|..]
    ensures r != [] ==> IsWordChar(r[0])
    ensures forall i :: 0 <= i < |s| - |r| ==> !IsWordChar(s[i])
  {
    if s == [] || IsWordChar(s[0]) then s else SkipRun(s[1..])
  }

  /**
   * `replace(/([^a-z0-9_]+)/gi, '-')`: every maximal run of other characters becomes one '-'.
   * The result holds only word characters and '-', never two '-' in a row, and is empty exactly
   * when the input is.
   */
  function Sanitise(s: string): (r: string)
    ensures forall i {:trigger IsNameChar(r[i])} :: 0 <= i < |r| ==> IsNameChar(r[i])
    ensures forall i :: 0 <= i < |r| - 1 ==> !(r[i] == '-' && r[i + 1] == '-')
    ensures r == [] <==> s == []
    ensures s != [] ==> (r[0] == '-' <==> !IsWordChar(s[0]))
    decreases |s|
  {
    if s == [] then []
    else if IsWordChar(s[0]) then [s[0]] + Sanitise(s[1..])
    else
      var rest := SkipRun(s[1..]);
      ['-'] + Sanitise(rest)
  }

  /** The word characters of a string, in order. */
  function Words(s: string): string
  {
    if s == [] then [] else (if IsWordChar(s[0]) then [s[0]] else []) + Words(s[1..])
  }

  lemma {:induction false} WordsOfRun(s: string)
    ensures Words(s) == Words(SkipRun(s))
  {
    if s != [] && !IsWordChar(s[0]) {
      WordsOfRun(s[1..]);
    }
  }

  /** A run of non-word characters in front of a word character, or of nothing, is skipped whole. */
  lemma {:induction false} SkipWholeRun(n: string, t: string)
    requires forall i :: 0 <= i < |n| ==> !IsWordChar(n[i])
    requires t == [] || IsWordChar(t[0])
    ensures SkipRun(n + t) == t
  {
    if n == [] {
      assert n + t == t;
    } else {
      assert (n + t)[1..] == n[1..] + t;
      SkipWholeRun(n[1..], t);
    }
  }

  /** A leading run of non-word characters becomes a single '-'. */
  lemma SanitiseLeadingRun(n: string, t: string)
    requires n != [] && forall i :: 0 <= i < |n| ==> !IsWordChar(n[i])
    requires t == [] || IsWordChar(t[0])
    ensures Sanitise(n + t) == ['-'] + Sanitise(t)
  {
    var s := n + t;
    assert s != [] && !IsWordChar(s[0]) by {
      assert s[0] == n[0];
    }
    assert SkipRun(s[1..]) == t by {
      assert s[1..] == n[1..] + t;
      SkipWholeRun(n[1..], t);
    }
    SanitiseStep(s);
  }

  /** A word character in front is kept as it is. */
  lemma SanitiseWordHead(c: char, s: string)
    requires IsWordChar(c)
    ensures Sanitise([c] + s) == [c] + Sanitise(s)
  {
    assert ([c] + s)[1..] == s;
    SanitiseStep([c] + s);
  }

  /** One step of the replacement: a word character is kept, a run of others becomes '-'. */
  lemma SanitiseStep(s: string)
    requires s != []
    ensures IsWordChar(s[0]) ==> Sanitise(s) == [s[0]] + Sanitise(s[1..])
    ensures !IsWordChar(s[0]) ==> Sanitise(s) == ['-'] + Sanitise(SkipRun(s[1..]))
  {
  }

  /**
   * The replacement run by run: after a stretch of word characters `w`, a maximal run `n` of
   * other characters becomes a single '-', and sanitising goes on with what follows the run.
   */
  lemma SanitiseRun(w: string, n: string, t: string)
    requires Clean(w)
    requires n != [] && forall i :: 0 <= i < |n| ==> !IsWordChar(n[i])
    requires t == [] || IsWordChar(t[0])
    ensures Sanitise(w + n + t) == w + "-" + Sanitise(t)
  {
    calc {
      Sanitise(w + n + t);
      { assert w + n + t == w + (n + t); }
      Sanitise(w + (n + t));
      { SanitiseCleanPrefix(w, n + t); }
      w + Sanitise(n + t);
      { SanitiseLeadingRun(n, t); }
      w + (['-'] + Sanitise(t));
      w + "-" + Sanitise(t);
    }
  }

  /** Word characters in front are kept as they are. */
  lemma {:induction false} SanitiseCleanPrefix(w: string, s: string)
    requires Clean(w)
    ensures Sanitise(w + s) == w + Sanitise(s)
  {
    if w != [] {
      assert w + s == [w[0]] + (w[1..] + s);
      SanitiseWordHead(w[0], w[1..] + s);
      SanitiseCleanPrefix(w[1..], s);
      assert w + Sanitise(s) == [w[0]] + (w[1..] + Sanitise(s));
    } else {
      assert w + s == s && w + Sanitise(s) == Sanitise(s);
    }
  }

  /** Sanitising keeps every word character, in order, and adds none. */
  lemma {:induction false} SanitiseKeepsWords(s: string)
    ensures Words(Sanitise(s)) == Words(s)
    decreases |s|
  {
    if s != [] {
      if IsWordChar(s[0]) {
        SanitiseKeepsWords(s[1..]);
        assert ([s[0]] + Sanitise(s[1..]))[1..] == Sanitise(s[1..]);
      } else {
        var rest := SkipRun(s[1..]);
        SanitiseKeepsWords(rest);
        WordsOfRun(s[1..]);
        assert (['-'] + Sanitise(rest))[1..] == Sanitise(rest);
      }
    }
  }

  /** A string of word characters only is left as it is. */
  lemma {:induction false} SanitiseClean(s: string)
    requires Clean(s)
    ensures Sanitise(s) == s
  {
    if s != [] {
      SanitiseClean(s[1..]);
    }
  }

  /** Sanitising twice is sanitising once. */
  lemma {:induction false} SanitiseIdempotent(s: string)
    ensures Sanitise(Sanitise(s)) == Sanitise(s)
    decreases |s|
  {
    if s != [] {
      var r := Sanitise(s);
      if IsWordChar(s[0]) {
        SanitiseIdempotent(s[1..]);
        assert r[1..] == Sanitise(s[1..]);
      } else {
        var rest := SkipRun(s[1..]);
        SanitiseIdempotent(rest);
        assert r[1..] == Sanitise(rest);
        assert SkipRun(r[1..]) == r[1..];
      }
    }
  }

  /** A sanitised string holds no separator, no dot. */
  lemma SanitisedIsPlain(s: string)
    ensures '/' !in Sanitise(s) && '\\' !in Sanitise(s) && '.' !in Sanitise(s)
  {
    var r := Sanitise(s);
    forall i | 0 <= i < |r|
      ensures r[i] != '/' && r[i] != '\\' && r[i] != '.'
    {
      assert IsNameChar(r[i]);
    }
  }

  /**
   * `util.export_file`'s local file name: the remote name without its path, the base with
   * "-" and the date code appended and sanitised, a dot, and the unsanitised extension.
   */
  function LocalFileName(remote: string, date: LocalDate): (local: string)
    requires IsDate(date)
    ensures '/' !in local && '\\' !in local
    ensures BaseName(local) == Sanitise(BaseName(StripPath(remote)) + "-" + DateToCode(date))
    ensures '.' !in BaseName(local)
    ensures Extension(local) == Extension(StripPath(remote))
  {
    NameWithCode(StripPath(remote), DateToCode(date))
  }

  /** A path-free name with a code appended to its sanitised base, its extension kept. */
  function NameWithCode(name: string, code: string): (local: string)
    requires '/' !in name && '\\' !in name
    ensures '/' !in local && '\\' !in local
    ensures BaseName(local) == Sanitise(BaseName(name) + "-" + code)
    ensures '.' !in BaseName(local)
    ensures Extension(local) == Extension(name)
  {
    var base := Sanitise(BaseName(name) + "-" + code);
    SanitisedIsPlain(BaseName(name) + "-" + code);
    var ext := Extension(name);
    SuffixKeepsOut(name, ext, '/');
    SuffixKeepsOut(name, ext, '\\');
    JoinSplits(base, ext);
    base + "." + ext
  }

  /** A character missing from a string is missing from its suffixes. */
  lemma SuffixKeepsOut(s: string, r: string, c: char)
    requires c !in s && |r| <= |s| && r == s[|s| - |r|..]
    ensures c !in r
  {
  }

  /** A dot with no dot after it is the last dot. */
  lemma LastDot(s: string, k: nat)
    requires k < |s| && s[k] == '.' && '.' !in s[k + 1..]
    ensures LastIndexOf(s, '.') == k
  {
    assert s[k] in s;
  }

  /** Joining a dot-free base and extension with a dot splits back into the two. */
  lemma JoinSplits(base: string, ext: string)
    requires '.' !in base && '.' !in ext
    ensures BaseName(base + "." + ext) == base && Extension(base + "." + ext) == ext
  {
    var joined := base + "." + ext;
    assert joined[|base| + 1..] == ext;
    LastDot(joined, |base|);
    assert joined[..|base|] == base;
  }

}
