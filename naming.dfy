/**
 * Session naming: the socket file that stands for a session in the session
 * directory, the file-name stem that maps it back when the directory is
 * listed, the slug made from a profile name, and generated session names.
 */
module Naming {
  import opened Optional
  import opened Strings

  // ---------------------------------------------------------------------------
  // Socket file names
  // ---------------------------------------------------------------------------

  const SocketSuffix: string := ".sock"

  /** `get_socket_path`: the directory entry holding session `name`'s socket. */
  function SocketFileName(name: string): string
  {
    name + SocketSuffix
  }

  /** Whether `glob("*.sock")` lists the directory entry `f`. */
  predicate IsSocketFile(f: string)
  {
    |f| >= |SocketSuffix| && f[|f| - |SocketSuffix|..] == SocketSuffix
  }

  /** Index of the last '.' in `s` (Python's `rfind('.')`), -1 when there is none. */
  function LastDot(s: string): (i: int)
    ensures -1 <= i < |s|
    ensures i >= 0 ==> s[i] == '.'
    ensures forall j :: i < j < |s| ==> s[j] != '.'
  {
    if s == [] then -1
    else if s[|s| - 1] == '.' then |s| - 1
    else LastDot(s[..|s| - 1])
  }

  /** `Path.stem`: the name without its last suffix. A suffix starts at the last
      dot, and only counts when that dot is neither the first nor the last character. */
  function Stem(f: string): string
  {
    var i := LastDot(f);
    if 0 < i < |f| - 1 then f[..i] else f
  }

  /** Distinct sessions have distinct socket files. */
  lemma SocketFileNameInjective(a: string, b: string)
    requires SocketFileName(a) == SocketFileName(b)
    ensures a == b
  {
    assert a == SocketFileName(a)[..|a|];
  }

  /** Listing the directory finds every session's socket and maps it back to
      the session's name, provided the name is not empty. */
  lemma StemOfSocketFileName(name: string)
    requires name != ""
    ensures IsSocketFile(SocketFileName(name))
    ensures Stem(SocketFileName(name)) == name
  {
    var f := SocketFileName(name);
    assert f[|name|..] == SocketSuffix;
    assert f[..|name|] == name;
    var i := LastDot(f);
    assert f[|name|] == '.';
    assert forall j :: |name| < j < |f| ==> f[j] != '.';
  }

  /** Conversely, every listed socket other than the bare `.sock` entry is the
      socket of its stem. */
  lemma SocketFileNameOfStem(f: string)
    requires IsSocketFile(f) && f != SocketSuffix
    ensures Stem(f) != "" && Stem(f) == f[..|f| - |SocketSuffix|]
    ensures SocketFileName(Stem(f)) == f
  {
    var n := |f| - |SocketSuffix|;
    assert f[n..] == SocketSuffix;
    assert f[n] == '.';
    assert forall j :: n < j < |f| ==> f[j] != '.';
    assert f[..n] + f[n..] == f;
  }

  /** The empty session name is the one exception: its socket `.sock` has no
      suffix in the sense of `Path.stem`, so a listing reports it as `.sock`. */
  lemma EmptyNameIsNotRecovered()
    ensures Stem(SocketFileName("")) == SocketSuffix
  {
    var f := SocketFileName("");
    assert f == ".sock" && f[0] == '.';
    assert forall j :: 0 < j < |f| ==> f[j] != '.';
  }

  /** Socket files other than `.sock` have pairwise distinct stems. */
  lemma StemsOfSocketFilesDiffer(f: string, g: string)
    requires IsSocketFile(f) && f != SocketSuffix
    requires IsSocketFile(g) && g != SocketSuffix
    requires f != g
    ensures Stem(f) != Stem(g)
  {
    SocketFileNameOfStem(f);
    SocketFileNameOfStem(g);
  }

  // ---------------------------------------------------------------------------
  // slugify
  // ---------------------------------------------------------------------------

  /** The characters `[a-z0-9]` that survive `slugify`. */
  predicate IsSlugAlnum(c: char)
  {
    'a' <= c <= 'z' || '0' <= c <= '9'
  }

  predicate IsSlugChar(c: char)
  {
    IsSlugAlnum(c) || c == '-'
  }

  predicate AllSlugChars(s: string)
  {
    forall i :: 0 <= i < |s| ==> IsSlugChar(s[i])
  }

  /** Positions `i` and `i + 1` both hold a hyphen. */
  predicate HyphenPairAt(s: string, i: int)
    requires 0 <= i < |s| - 1
  {
    s[i] == '-' && s[i + 1] == '-'
  }

  predicate NoDoubleHyphen(s: string)
  {
    forall i :: 0 <= i < |s| - 1 ==> !HyphenPairAt(s, i)
  }

  /** Putting a character in front keeps single hyphens, unless a hyphen meets a hyphen. */
  lemma ConsKeepsSingleHyphens(c: char, rest: string)
    requires NoDoubleHyphen(rest)
    requires c == '-' ==> rest == [] || rest[0] != '-'
    ensures NoDoubleHyphen([c] + rest)
  {
    var r := [c] + rest;
    forall i | 0 <= i < |r| - 1
      ensures !HyphenPairAt(r, i)
    {
      if i > 0 {
        assert r[i] == rest[i - 1] && r[i + 1] == rest[i];
        assert !HyphenPairAt(rest, i - 1);
      }
    }
  }

  /** The letters and digits of `s`, in order. */
  function Alnums(s: string): string
  {
    if s == [] then [] else (if IsSlugAlnum(s[0]) then [s[0]] else []) + Alnums(s[1..])
  }

  /** `str.lower` on ASCII letters; every other character is kept. */
  function LowerChar(c: char): char
  {
    if 'A' <= c <= 'Z' then (c as int - 'A' as int + 'a' as int) as char else c
  }

  function Lower(s: string): string
  {
    seq(|s|, i requires 0 <= i < |s| => LowerChar(s[i]))
  }

  /** `re.sub(r'[^a-z0-9]+', '-', s)`: every maximal run of characters outside
      `[a-z0-9]` becomes one hyphen. `inRun` says that a run has just been
      replaced, so further characters of it are dropped. */
  function Collapse(s: string, inRun: bool): (r: string)
    ensures AllSlugChars(r) && NoDoubleHyphen(r)
    ensures inRun && r != [] ==> r[0] != '-'
    ensures Alnums(r) == Alnums(s)
    decreases |s|
  {
    if s == [] then []
    else if IsSlugAlnum(s[0]) then
      var r := [s[0]] + Collapse(s[1..], false);
      assert r[1..] == Collapse(s[1..], false);
      ConsKeepsSingleHyphens(s[0], Collapse(s[1..], false));
      r
    else if inRun then Collapse(s[1..], true)
    else
      var r := ['-'] + Collapse(s[1..], true);
      assert r[1..] == Collapse(s[1..], true);
      ConsKeepsSingleHyphens('-', Collapse(s[1..], true));
      r
  }

  const DefaultSlug: string := "default"
  const MaxSlugLength: nat := 20

  /** What `slugify` promises of its result. */
  predicate IsSlug(s: string)
  {
    s != [] && |s| <= MaxSlugLength && AllSlugChars(s) && s[0] != '-' && NoDoubleHyphen(s)
  }

  /** `slugify`: lower-case, one hyphen per run of other characters, hyphens
      stripped from both ends, cut to 20 characters; "default" when nothing is left. */
  function Slugify(text: Option<string>): (r: string)
    ensures IsSlug(r)
    ensures text.None? || Alnums(Lower(text.value)) == [] ==> r == DefaultSlug
  {
    if text.None? || text.value == "" then DefaultSlug
    else
      var t := Strip(Collapse(Lower(text.value), false), {'-'});
      StrippedCollapse(Lower(text.value));
      if t == [] then DefaultSlug
      else if |t| <= MaxSlugLength then t
      else
        SliceKeepsSlugChars(t, 0, MaxSlugLength);
        t[..MaxSlugLength]
  }

  lemma SliceKeepsSlugChars(s: string, i: nat, j: nat)
    requires i <= j <= |s|
    requires AllSlugChars(s) && NoDoubleHyphen(s)
    ensures AllSlugChars(s[i..j]) && NoDoubleHyphen(s[i..j])
  {
    var t := s[i..j];
    forall a | 0 <= a < |t| - 1
      ensures !HyphenPairAt(t, a)
    {
      assert t[a] == s[i + a] && t[a + 1] == s[i + a + 1];
      assert !HyphenPairAt(s, i + a);
    }
  }

  lemma {:induction false} AlnumsAppend(a: string, b: string)
    ensures Alnums(a + b) == Alnums(a) + Alnums(b)
  {
    if a == [] {
      assert a + b == b;
    } else {
      var head := if IsSlugAlnum(a[0]) then [a[0]] else [];
      assert (a + b)[0] == a[0] && (a + b)[1..] == a[1..] + b;
      assert Alnums(a + b) == head + Alnums(a[1..] + b);
      AlnumsAppend(a[1..], b);
      assert Alnums(a) == head + Alnums(a[1..]);
    }
  }

  lemma {:induction false} AlnumsOfHyphens(s: string)
    requires forall i :: 0 <= i < |s| ==> s[i] == '-'
    ensures Alnums(s) == []
  {
    if s != [] {
      AlnumsOfHyphens(s[1..]);
    }
  }

  lemma {:induction false} NoAlnumsMeansHyphens(s: string)
    requires AllSlugChars(s) && Alnums(s) == []
    ensures forall i :: 0 <= i < |s| ==> s[i] == '-'
  {
    if s != [] {
      assert !IsSlugAlnum(s[0]);
      NoAlnumsMeansHyphens(s[1..]);
      assert forall i :: 1 <= i < |s| ==> s[i] == s[1..][i - 1];
    }
  }

  /** Dropping leading hyphens keeps the letters, digits and shape. */
  lemma TrimStartKeepsSlug(c: string)
    requires AllSlugChars(c) && NoDoubleHyphen(c)
    ensures var u := TrimStart(c, {'-'});
      AllSlugChars(u) && NoDoubleHyphen(u) && Alnums(u) == Alnums(c)
  {
    var u := TrimStart(c, {'-'});
    var k := |c| - |u|;
    assert AllSlugChars(u) && NoDoubleHyphen(u) by {
      assert u == c[k..|c|];
      SliceKeepsSlugChars(c, k, |c|);
    }
    assert Alnums(u) == Alnums(c) by {
      var h := c[..k];
      assert forall i :: 0 <= i < |h| ==> h[i] == c[i];
      assert c == h + u;
      AlnumsOfHyphens(h);
      AlnumsAppend(h, u);
    }
  }

  /** Dropping trailing hyphens keeps the letters, digits and shape. */
  lemma TrimEndKeepsSlug(u: string)
    requires AllSlugChars(u) && NoDoubleHyphen(u)
    ensures var t := TrimEnd(u, {'-'});
      AllSlugChars(t) && NoDoubleHyphen(t) && Alnums(t) == Alnums(u)
  {
    var t := TrimEnd(u, {'-'});
    assert AllSlugChars(t) && NoDoubleHyphen(t) by {
      SliceKeepsSlugChars(u, 0, |t|);
    }
    assert Alnums(t) == Alnums(u) by {
      assert u == t + u[|t|..];
      AlnumsOfHyphens(u[|t|..]);
      AlnumsAppend(t, u[|t|..]);
    }
  }

  /** Stripping the hyphens off a collapsed string keeps its shape and its
      letters and digits, and leaves nothing when it had none. */
  lemma StrippedCollapse(s: string)
    ensures var t := Strip(Collapse(s, false), {'-'});
      && AllSlugChars(t) && NoDoubleHyphen(t) && (t == [] || (t[0] != '-' && t[|t| - 1] != '-'))
      && Alnums(t) == Alnums(s)
      && (Alnums(s) == [] ==> t == [])
  {
    var c := Collapse(s, false);
    var u := TrimStart(c, {'-'});
    var t := TrimEnd(u, {'-'});
    TrimStartKeepsSlug(c);
    TrimEndKeepsSlug(u);
    assert t == [] || t[0] == u[0];
    if Alnums(s) == [] && t != [] {
      NoAlnumsMeansHyphens(t);
    }
  }

  /** The slug's letters and digits are those of the lower-cased input, in
      order, cut short only by the length limit; it starts with the input's first. */
  lemma SlugifyKeepsInputAlnums(text: string)
    requires Alnums(Lower(text)) != []
    ensures var r := Slugify(Some(text));
      Alnums(r) != [] && Alnums(r) <= Alnums(Lower(text)) && r[0] == Alnums(Lower(text))[0]
  {
    var r := Slugify(Some(text));
    var t := Strip(Collapse(Lower(text), false), {'-'});
    StrippedCollapse(Lower(text));
    assert text != "";
    assert t != [];
    if |t| > MaxSlugLength {
      assert r == t[..MaxSlugLength];
      assert t == r + t[MaxSlugLength..];
      AlnumsAppend(r, t[MaxSlugLength..]);
    } else {
      assert r == t;
    }
    assert IsSlugAlnum(r[0]);
    assert Alnums(r)[0] == r[0];
  }

  /** A string that is already a slug and does not end in a hyphen is its own slug. */
  lemma SlugifyFixesFinishedSlugs(x: string)
    requires IsSlug(x) && x[|x| - 1] != '-'
    ensures Slugify(Some(x)) == x
  {
    assert Lower(x) == x;
    CollapseFixpoint(x, false);
    StripKeepsTrimmedString(x, {'-'});
  }

  lemma {:induction false} CollapseFixpoint(x: string, inRun: bool)
    requires AllSlugChars(x) && NoDoubleHyphen(x)
    requires inRun && x != [] ==> x[0] != '-'
    ensures Collapse(x, inRun) == x
    decreases |x|
  {
    if x != [] {
      SliceKeepsSlugChars(x, 1, |x|);
      assert x[1..|x|] == x[1..];
      if IsSlugAlnum(x[0]) {
        CollapseFixpoint(x[1..], false);
      } else {
        assert |x| > 1 ==> !HyphenPairAt(x, 0);
        CollapseFixpoint(x[1..], true);
      }
      assert [x[0]] + x[1..] == x;
    }
  }

  /** A run of letters and digits passes through `Collapse` unchanged. */
  lemma {:induction false} CollapseAlnumPrefix(a: string, rest: string, inRun: bool)
    requires a != [] && forall i :: 0 <= i < |a| ==> IsSlugAlnum(a[i])
    ensures Collapse(a + rest, inRun) == a + Collapse(rest, false)
    decreases |a|
  {
    var t := a[1..] + rest;
    assert a + rest == [a[0]] + t;
    CollapseKeepsAlnum(a[0], t, inRun);
    if |a| > 1 {
      assert forall i :: 0 <= i < |a[1..]| ==> a[1..][i] == a[i + 1];
      CollapseAlnumPrefix(a[1..], rest, false);
    } else {
      assert t == rest;
    }
    assert [a[0]] + a[1..] == a;
  }

  /** A letter or digit is copied and ends any run. */
  lemma CollapseKeepsAlnum(c: char, t: string, inRun: bool)
    requires IsSlugAlnum(c)
    ensures Collapse([c] + t, inRun) == [c] + Collapse(t, false)
  {
    assert ([c] + t)[0] == c && ([c] + t)[1..] == t;
  }

  /** A character outside `[a-z0-9]` starts a run, which becomes one hyphen,
      or continues one, and is dropped. */
  lemma CollapseMergesSeparator(c: char, t: string, inRun: bool)
    requires !IsSlugAlnum(c)
    ensures Collapse([c] + t, inRun) == (if inRun then [] else "-") + Collapse(t, true)
  {
    assert ([c] + t)[0] == c && ([c] + t)[1..] == t;
  }

  /** A whole run of characters outside `[a-z0-9]` becomes a single hyphen,
      or nothing when it continues a run already replaced. */
  lemma {:induction false} CollapseSeparatorRun(x: string, b: string, inRun: bool)
    requires x != [] && forall i :: 0 <= i < |x| ==> !IsSlugAlnum(x[i])
    ensures Collapse(x + b, inRun) == (if inRun then [] else "-") + Collapse(b, true)
    decreases |x|
  {
    var t := x[1..] + b;
    assert x + b == [x[0]] + t;
    CollapseMergesSeparator(x[0], t, inRun);
    if |x| > 1 {
      assert forall i :: 0 <= i < |x[1..]| ==> x[1..][i] == x[i + 1];
      CollapseSeparatorRun(x[1..], b, true);
      assert Collapse(t, true) == Collapse(b, true);
    } else {
      assert t == b;
    }
  }

  lemma LowerKeepsLowerCase(s: string)
    requires forall i :: 0 <= i < |s| ==> !('A' <= s[i] <= 'Z')
    ensures Lower(s) == s
  {
  }

  /** Cutting at 20 characters can leave a trailing hyphen: here `a` is any 19
      lower-case letters or digits, and the input is `a` followed by " b". */
  lemma SlugifyCanEndInHyphen(a: string)
    requires |a| == 19 && forall i :: 0 <= i < |a| ==> IsSlugAlnum(a[i])
    ensures Slugify(Some(a + " b")) == a + "-"
  {
    var x := a + " b";
    var c := a + "-b";
    assert Strip(Collapse(Lower(x), false), {'-'}) == c by {
      LowerKeepsLowerCase(x);
      CollapseSpaceLetter(a);
      StripKeepsTrimmedString(c, {'-'});
    }
    assert c[..MaxSlugLength] == a + "-";
    SlugifyOfStripped(x, c);
  }

  /** `slugify` of a non-empty text, given what collapsing and stripping leave. */
  lemma SlugifyOfStripped(text: string, t: string)
    requires text != "" && Strip(Collapse(Lower(text), false), {'-'}) == t
    ensures t != [] && |t| <= MaxSlugLength ==> Slugify(Some(text)) == t
    ensures |t| > MaxSlugLength ==> Slugify(Some(text)) == t[..MaxSlugLength]
  {
  }

  lemma CollapseSpaceLetter(a: string)
    requires a != [] && forall i :: 0 <= i < |a| ==> IsSlugAlnum(a[i])
    ensures Collapse(a + " b", false) == a + "-b"
  {
    CollapseAlnumPrefix(a, " b", false);
    CollapseSpaceB();
  }

  lemma CollapseSpaceB()
    ensures Collapse(" b", false) == "-b"
  {
    assert Collapse("b", true) == "b" by {
      assert "b"[0] == 'b' && "b"[1..] == [];
    }
    assert " b"[0] == ' ' && " b"[1..] == "b";
  }

  /** ... and a second `slugify` strips that hyphen, so `slugify` is not idempotent. */
  lemma SlugifyStripsTrailingHyphen(a: string)
    requires |a| == 19 && forall i :: 0 <= i < |a| ==> IsSlugAlnum(a[i])
    ensures Slugify(Some(a + "-")) == a
  {
    var y := a + "-";
    assert Strip(Collapse(Lower(y), false), {'-'}) == a by {
      LowerKeepsLowerCase(y);
      CollapseAlnumPrefix(a, "-", false);
      assert Collapse("-", false) == "-";
      StripTrailingHyphen(a);
    }
    SlugifyOfStripped(y, a);
  }

  lemma StripTrailingHyphen(a: string)
    requires a != [] && forall i :: 0 <= i < |a| ==> IsSlugAlnum(a[i])
    ensures Strip(a + "-", {'-'}) == a
  {
    var y := a + "-";
    var n := |a|;
    assert y[0] == a[0] && y[n - 1] == a[n - 1] && y[n] == '-';
    assert TrimStart(y, {'-'}) == y;
    var r := TrimEnd(y, {'-'});
    assert |r| == n;
    assert r == y[..n] == a;
  }

  // ---------------------------------------------------------------------------
  // generate_session_name
  // ---------------------------------------------------------------------------

  /** One piece of the `session_name_format` template, already split at its fields. */
  datatype Field = Literal(text: string) | ProfileField | DateField | TimeField | RandomField

  /** `{profile}-{date}-{time}-{random}` */
  const DefaultNameFormat: seq<Field> :=
    [ProfileField, Literal("-"), DateField, Literal("-"), TimeField, Literal("-"), RandomField]

  /** `str.format` on the template with the four named fields. */
  function FormatName(format: seq<Field>, profile: string, date: string, time: string, random: string): string
  {
    if format == [] then []
    else
      var head := match format[0]
        case Literal(text) => text
        case ProfileField => profile
        case DateField => date
        case TimeField => time
        case RandomField => random;
      head + FormatName(format[1..], profile, date, time, random)
  }

  /** The `{profile}` field: the profile name's slug, or "default" without one. */
  function ProfileSlug(profileName: Option<string>): string
  {
    if Truthy(profileName) then Slugify(profileName) else DefaultSlug
  }

  /** `generate_session_name`, with the clock's `%Y%m%d` and `%H%M%S` and the
      random suffix passed in. */
  function GenerateSessionName(format: seq<Field>, profileName: Option<string>,
                               date: string, time: string, random: string): string
  {
    FormatName(format, ProfileSlug(profileName), date, time, random)
  }

  lemma FormatNameCons(head: Field, rest: seq<Field>, profile: string, date: string, time: string, random: string)
    ensures FormatName([head] + rest, profile, date, time, random)
         == FormatName([head], profile, date, time, random) + FormatName(rest, profile, date, time, random)
  {
    assert ([head] + rest)[1..] == rest;
  }

  /** The default template gives `<slug>-<date>-<time>-<random>`. */
  lemma DefaultFormatLayout(profile: string, date: string, time: string, random: string)
    ensures FormatName(DefaultNameFormat, profile, date, time, random)
         == profile + "-" + date + "-" + time + "-" + random
  {
    var dash := Literal("-");
    FormatNameCons(RandomField, [], profile, date, time, random);
    FormatNameCons(dash, [RandomField], profile, date, time, random);
    FormatNameCons(TimeField, [dash, RandomField], profile, date, time, random);
    FormatNameCons(dash, [TimeField, dash, RandomField], profile, date, time, random);
    FormatNameCons(DateField, [dash, TimeField, dash, RandomField], profile, date, time, random);
    FormatNameCons(dash, [DateField, dash, TimeField, dash, RandomField], profile, date, time, random);
    FormatNameCons(ProfileField, [dash, DateField, dash, TimeField, dash, RandomField], profile, date, time, random);
    assert [ProfileField] + [dash, DateField, dash, TimeField, dash, RandomField] == DefaultNameFormat;
  }

  /** The parts a name built from the default template is made of. */
  datatype NameParts = NameParts(profile: string, date: string, time: string, random: string)

  /** Reads the four parts back from the end of a generated name: the reference
      that `GenerateSessionName` is checked against. */
  function SplitGeneratedName(name: string): Option<NameParts>
  {
    var n := |name|;
    if n >= 21 && name[n - 21] == '-' && name[n - 12] == '-' && name[n - 5] == '-' then
      Some(NameParts(name[..n - 21], name[n - 20..n - 12], name[n - 11..n - 5], name[n - 4..]))
    else None
  }

  /** A generated name, with an 8-character date, a 6-character time and a
      4-character suffix, holds exactly its profile slug, date, time and suffix. */
  lemma GeneratedNameRoundTrip(profileName: Option<string>, date: string, time: string, random: string)
    requires |date| == 8 && |time| == 6 && |random| == 4
    ensures SplitGeneratedName(GenerateSessionName(DefaultNameFormat, profileName, date, time, random))
         == Some(NameParts(ProfileSlug(profileName), date, time, random))
  {
    var p := ProfileSlug(profileName);
    DefaultFormatLayout(p, date, time, random);
    SplitLayout(p, date, time, random);
  }

  lemma SplitLayout(p: string, date: string, time: string, random: string)
    requires |date| == 8 && |time| == 6 && |random| == 4
    ensures SplitGeneratedName(p + "-" + date + "-" + time + "-" + random)
         == Some(NameParts(p, date, time, random))
  {
    var tail := "-" + date + "-" + time + "-" + random;
    var name := p + tail;
    assert name == p + "-" + date + "-" + time + "-" + random;
    var n := |name|;
    assert |tail| == 21 && n == |p| + 21;
    assert name[..n - 21] == p;
    assert name[n - 21..] == tail;
    assert tail[1..9] == date && tail[10..16] == time && tail[17..] == random;
    assert name[n - 20..n - 12] == tail[1..9];
    assert name[n - 11..n - 5] == tail[10..16];
    assert name[n - 4..] == tail[17..];
  }

  /** Two generated names collide only when profile slug, date, time and
      random suffix all coincide. */
  lemma GeneratedNamesCollideOnlyOnEqualParts(p1: Option<string>, d1: string, t1: string, x1: string,
                                              p2: Option<string>, d2: string, t2: string, x2: string)
    requires |d1| == 8 && |t1| == 6 && |x1| == 4
    requires |d2| == 8 && |t2| == 6 && |x2| == 4
    requires GenerateSessionName(DefaultNameFormat, p1, d1, t1, x1)
          == GenerateSessionName(DefaultNameFormat, p2, d2, t2, x2)
    ensures ProfileSlug(p1) == ProfileSlug(p2) && d1 == d2 && t1 == t2 && x1 == x2
  {
    GeneratedNameRoundTrip(p1, d1, t1, x1);
    GeneratedNameRoundTrip(p2, d2, t2, x2);
  }

  predicate IsDigits(s: string)
  {
    forall i :: 0 <= i < |s| ==> '0' <= s[i] <= '9'
  }

  /** What `random.choices(ascii_lowercase + digits, k=4)` produces. */
  predicate IsRandomSuffix(s: string)
  {
    |s| == 4 && forall i :: 0 <= i < |s| ==> IsSlugAlnum(s[i])
  }

  /** A name from the default template uses only slug characters, starts with a
      letter or digit, and is found again under its own name by a listing. */
  lemma GeneratedNameIsListable(profileName: Option<string>, date: string, time: string, random: string)
    requires IsDigits(date) && IsDigits(time) && IsRandomSuffix(random)
    ensures var name := GenerateSessionName(DefaultNameFormat, profileName, date, time, random);
      AllSlugChars(name) && name != [] && name[0] != '-' && Stem(SocketFileName(name)) == name
  {
    var p := ProfileSlug(profileName);
    DefaultFormatLayout(p, date, time, random);
    var name := p + "-" + date + "-" + time + "-" + random;
    assert forall i :: 0 <= i < |name| ==> IsSlugChar(name[i]) by {
      forall i | 0 <= i < |name| ensures IsSlugChar(name[i]) {
        if i < |p| { assert name[i] == p[i]; }
        else if i == |p| { }
        else if i < |p| + 1 + |date| { assert name[i] == date[i - |p| - 1]; }
        else if i == |p| + 1 + |date| { }
        else if i < |p| + 2 + |date| + |time| { assert name[i] == time[i - |p| - 2 - |date|]; }
        else if i == |p| + 2 + |date| + |time| { }
        else { assert name[i] == random[i - |p| - 3 - |date| - |time|]; }
      }
    }
    assert name[0] == p[0];
    StemOfSocketFileName(name);
  }
}
