/** Object references and the texts that stand for them. */
module Refs {
  import opened Results
  import opened Texts

  // ---------------------------------------------------------------- text

  /** `text.split(c)`. */
  function Split(s: string, c: char): (parts: seq<string>)
    ensures parts != [] && forall p :: p in parts ==> c !in p
  {
    if s == "" then [""]
    else
      var rest := Split(s[1..], c);
      if s[0] == c then [""] + rest else [[s[0]] + rest[0]] + rest[1..]
  }

  function Join(parts: seq<string>, c: char): string {
    if parts == [] then "" else if |parts| == 1 then parts[0] else parts[0] + [c] + Join(parts[1..], c)
  }

  lemma {:induction false} SplitPrefix(p: string, c: char, s: string)
    requires c !in p
    ensures Split(p + [c] + s, c) == [p] + Split(s, c)
    ensures Split(p, c) == [p]
  {
    if p == "" {
      assert ("" + [c] + s)[1..] == s;
    } else {
      assert p[0] in p && (p + [c] + s)[1..] == p[1..] + [c] + s;
      assert forall x :: x in p[1..] ==> x in p;
      SplitPrefix(p[1..], c, s);
      assert p == [p[0]] + p[1..];
    }
  }

  lemma {:induction false} SplitJoin(parts: seq<string>, c: char)
    requires parts != [] && forall p :: p in parts ==> c !in p
    ensures Split(Join(parts, c), c) == parts
  {
    assert parts[0] in parts && forall p :: p in parts[1..] ==> p in parts;
    assert parts == [parts[0]] + parts[1..];
    SplitPrefix(parts[0], c, if |parts| == 1 then "" else Join(parts[1..], c));
    if |parts| > 1 {
      SplitJoin(parts[1..], c);
    }
  }

  predicate IsLetter(c: char) {
    'A' <= c <= 'Z' || 'a' <= c <= 'z'
  }

  function Upper(s: string): (u: string)
    ensures |u| == |s|
  {
    if s == "" then "" else [if 'a' <= s[0] <= 'z' then (s[0] as int - 32) as char else s[0]] + Upper(s[1..])
  }

  const FC_NAMES: set<string> := {"ST", "MX", "SP", "SV", "CF", "DC", "SG", "SE", "SR", "OR", "BL", "EX", "CO", "US", "MS", "RP", "BR", "LG", "GO"}

  predicate IsFc(s: string) {
    s in FC_NAMES
  }

  lemma FcNames(fc: string)
    requires IsFc(fc)
    ensures |fc| == 2 && 'A' <= fc[0] <= 'Z' && 'A' <= fc[1] <= 'Z' && Upper(fc) == fc
  {
    hide Upper;
    UpperTwo(fc);
  }

  lemma UpperTwo(s: string)
    requires |s| == 2 && !('a' <= s[0] <= 'z') && !('a' <= s[1] <= 'z')
    ensures Upper(s) == s
  {
  }

  // ---------------------------------------------------------------- references

  datatype ObjectRef = ObjectRef(ld: string, ln: Option<string>, path: seq<string>, fc: Option<string>) {
    function Iec(): string {
      if ln.None? then ld
      else ld + "/" + Join([ln.value] + path, '.')
    }

    function Parts(): seq<string> {
      [ld] + (if ln.Some? then [ln.value] else []) + path
    }

    function ShellPath(): string {
      "/" + Join(Parts(), '/')
    }

    /** `str(ref)`. */
    function Text(): string {
      Iec() + if fc.Some? then " [" + fc.value + "]" else ""
    }

    /** Components are names, data lies in a logical node, and the FC exists. */
    predicate Valid() {
      && (forall p :: p in Parts() ==> IsName(p))
      && (ln.None? ==> path == [])
      && (fc.Some? ==> IsFc(fc.value))
    }
  }

  predicate IsNameChar(c: char) {
    IsLetter(c) || '0' <= c <= '9' || c == '_' || c == '(' || c == ')' || c == '-'
  }

  predicate IsName(s: string) {
    s != "" && forall i :: 0 <= i < |s| ==> IsNameChar(s[i])
  }

  datatype RefError = UnknownFc | EmptyRef | Conflict | ServerRoot | InvalidName | NotMms | NeedsFc | NeedsLd

  /** `split_fc`: strip a suffix of two letters in brackets. */
  function SplitFc(text: string): Result<(string, Option<string>), RefError> {
    var s := Strip(text);
    var n := |s|;
    if n >= 4 && s[n - 1] == ']' && s[n - 4] == '[' && IsLetter(s[n - 3]) && IsLetter(s[n - 2]) && '\n' !in StripRight(s[..n - 4]) then
      var fc := Upper(s[n - 3..n - 1]);
      if IsFc(fc) then Ok((StripRight(s[..n - 4]), Some(fc))) else Err(UnknownFc)
    else
      Ok((s, None))
  }

  /** The components of a text, slashes and dots alike, but for chunks that are dots themselves. */
  function Components(chunks: seq<string>): seq<string> {
    if chunks == [] then []
    else
      var n := |chunks| - 1;
      Components(chunks[..n]) + if chunks[n] == "." || chunks[n] == ".." then [chunks[n]] else NonEmpty(Split(chunks[n], '.'))
  }

  function NonEmpty(parts: seq<string>): seq<string> {
    if parts == [] then [] else (if parts[0] == "" then [] else [parts[0]]) + NonEmpty(parts[1..])
  }

  function Normalised(parts: seq<string>): seq<string> {
    if parts == [] then []
    else
      var before, p := Normalised(parts[..|parts| - 1]), parts[|parts| - 1];
      if p == "" || p == "." then before
      else if p == ".." then (if before == [] then [] else before[..|before| - 1])
      else before + [p]
  }

  /** `_split_keep_dots`. */
  method SplitKeepDots(body: string) returns (comps: seq<string>)
    ensures comps == Components(Split(body, '/'))
  {
    var chunks := Split(body, '/');
    comps := [];
    for i := 0 to |chunks|
      invariant comps == Components(chunks[..i])
    {
      assert chunks[..i + 1][..i] == chunks[..i];
      if chunks[i] == "." || chunks[i] == ".." {
        comps := comps + [chunks[i]];
      } else {
        comps := comps + NonEmpty(Split(chunks[i], '.'));
      }
    }
    assert chunks[..|chunks|] == chunks;
  }

  /** `_normalise`. */
  method Normalise(parts: seq<string>) returns (out: seq<string>)
    ensures out == Normalised(parts)
  {
    out := [];
    for i := 0 to |parts|
      invariant out == Normalised(parts[..i])
    {
      assert parts[..i + 1][..i] == parts[..i];
      if parts[i] == "" || parts[i] == "." {
        continue;
      }
      if parts[i] == ".." {
        if out != [] {
          out := out[..|out| - 1];
        }
        continue;
      }
      out := out + [parts[i]];
    }
    assert parts[..|parts|] == parts;
  }

  function DropSlashes(s: string): string {
    if s != "" && s[0] == '/' then DropSlashes(s[1..]) else s
  }

  /** `re.split(r"[/.]", ...)`. */
  function SplitBoth(chunks: seq<string>): seq<string> {
    if chunks == [] then [] else Split(chunks[0], '.') + SplitBoth(chunks[1..])
  }

  /** `parse_path_components`. */
  function PathComponents(body: string, cwd: seq<string>, knownLds: Option<set<string>>): seq<string>
    requires body != ""
  {
    if body[0] == '/' then Normalised(SplitBoth(Split(DropSlashes(body), '/')))
    else
      var chunks := Split(body, '/');
      var dotted := chunks[0] == "." || chunks[0] == "..";
      var first := if dotted then chunks[0] else Split(chunks[0], '.')[0];
      var absolute :=
        if |chunks| > 1 && first != "." && first != ".." then
          (if knownLds.Some? then first in knownLds.value else cwd == [] || exists i :: 0 < i < |chunks| && '.' in chunks[i])
        else
          cwd == [];
      Normalised((if absolute then [] else cwd) + Components(chunks))
  }

  /** `_from_parts`. */
  function FromParts(parts: seq<string>): (r: Result<ObjectRef, RefError>)
    ensures r.Ok? ==> r.value.fc == None && r.value.Parts() == parts
  {
    if parts == [] then Err(ServerRoot)
    else if exists p :: p in parts && !IsName(p) then Err(InvalidName)
    else if |parts| == 1 then Ok(ObjectRef(parts[0], None, [], None))
    else Ok(ObjectRef(parts[0], Some(parts[1]), parts[2..], None))
  }

  lemma AddOne(before: seq<string>, p: string)
    ensures var n := Normalised(before);
            Normalised(before + [p]) ==
            if IsStep(p) then n + [p] else if p == ".." && n != [] then n[..|n| - 1] else n
  {
    assert (before + [p])[..|before|] == before;
  }

  /** A path without empty components and dots is normalised, ... */
  lemma {:induction false} NormalisedSteps(parts: seq<string>)
    requires forall p :: p in parts ==> IsStep(p)
    ensures Normalised(parts) == parts
  {
    if parts != [] {
      var n := |parts| - 1;
      NormalisedSteps(parts[..n]);
      assert parts == parts[..n] + [parts[n]];
      AddOne(parts[..n], parts[n]);
    }
  }

  /** ... and a normalised path has none. */
  lemma {:induction false} HoldsOnlySteps(parts: seq<string>)
    ensures forall p :: p in Normalised(parts) ==> IsStep(p)
  {
    if parts != [] {
      var n := |parts| - 1;
      HoldsOnlySteps(parts[..n]);
      assert parts == parts[..n] + [parts[n]];
      AddOne(parts[..n], parts[n]);
    }
  }

  /** What comes after a path depends only on where that path leads. */
  lemma {:induction false} NormalisedOnwards(a: seq<string>, b: seq<string>)
    ensures Normalised(a + b) == Normalised(Normalised(a) + b)
  {
    hide Normalised;
    var here := Normalised(a);
    if b == [] {
      HoldsOnlySteps(a);
      NormalisedSteps(here);
      assert a + b == a && here + b == here;
    } else {
      var n := |b| - 1;
      NormalisedOnwards(a, b[..n]);
      assert a + b == (a + b[..n]) + [b[n]] && here + b == (here + b[..n]) + [b[n]];
      AddOne(a + b[..n], b[n]);
      AddOne(here + b[..n], b[n]);
    }
  }

  /** Paths that lead to the same place lead to the same place onwards. */
  lemma SameOnwards(a: seq<string>, b: seq<string>, rest: seq<string>)
    requires Normalised(a) == Normalised(b)
    ensures Normalised(a + rest) == Normalised(b + rest)
  {
    hide Normalised;
    NormalisedOnwards(a, rest);
    NormalisedOnwards(b, rest);
  }

  /** Wherever they stand in a path, two dots cancel the component before them, or nothing at the root;
      one dot and an empty component count for nothing. */
  lemma DotsCancel(a: seq<string>, p: string, b: seq<string>)
    ensures IsStep(p) ==> Normalised(a + [p, ".."] + b) == Normalised(a + b)
    ensures p == "." || p == "" ==> Normalised(a + [p] + b) == Normalised(a + b)
    ensures Normalised([".."] + b) == Normalised(b)
  {
    hide Normalised;
    AddOne(a, p);
    AddOne(a + [p], "..");
    assert a + [p] + [".."] == a + [p, ".."];
    if IsStep(p) {
      SameOnwards(a + [p, ".."], a, b);
    } else if p != ".." {
      SameOnwards(a + [p], a, b);
    }
    NormalisedSteps([]);
    AddOne([], "..");
    assert [] + [".."] == [".."] && [] + b == b;
    SameOnwards([".."], [], b);
  }

  // ---------------------------------------------------------------- MMS names

  function MmsItem(r: ObjectRef): Result<string, RefError> {
    if r.ln.None? then Err(NeedsFc)
    else if r.path == [] then Ok(if r.fc.None? then r.ln.value else r.ln.value + "$" + r.fc.value)
    else if r.fc.None? then Err(NeedsFc)
    else Ok(Join([r.ln.value, r.fc.value] + r.path, '$'))
  }

  /** `parse_mms`: logical device, slash, item. */
  function ParseMms(text: string): Result<ObjectRef, RefError> {
    var chunks := Split(text, '/');
    if |chunks| == 1 || chunks[0] == "" then Err(NotMms)
    else
      var parts := Split(Join(chunks[1..], '/'), '$');
      if |parts| == 1 then Ok(ObjectRef(chunks[0], Some(parts[0]), [], None))
      else if !IsFc(Upper(parts[1])) then Err(UnknownFc)
      else Ok(ObjectRef(chunks[0], Some(parts[0]), parts[2..], Some(Upper(parts[1]))))
  }

  predicate LooksNative(text: string) {
    '$' in text && text[0] != '/'
  }

  /** `parse_ref`; `native` when the protocol's own names are accepted too. */
  function ParseRef(text: string, cwd: seq<string>, fc: Option<string>, knownLds: Option<set<string>>, native: bool)
    : Result<ObjectRef, RefError>
  {
    var (body, suffix) :- SplitFc(text);
    if body == "" then Err(EmptyRef)
    else
      var isNative := native && LooksNative(body);
      var hasLd := '/' in body;
      if isNative && !hasLd && cwd == [] then Err(NeedsLd)
      else
        var r :- if isNative then ParseMms(if hasLd then body else cwd[0] + "/" + body)
                 else FromParts(PathComponents(body, cwd, knownLds));
        var fcs := Given(suffix) + Given(if isNative then r.fc else None) + Given(if fc.Some? then Some(Upper(fc.value)) else None);
        Agreed(r, fcs)
  }

  /** The reference under the FC that all agree on. */
  function Agreed(r: ObjectRef, fcs: seq<string>): Result<ObjectRef, RefError> {
    if exists a, b :: a in fcs && b in fcs && a != b then Err(Conflict)
    else Ok(r.(fc := if fcs == [] then None else Some(fcs[0])))
  }

  lemma AlsoAgreed(r: ObjectRef, fcs: seq<string>, more: string)
    ensures Agreed(r, fcs + [more]) ==
            if fcs == [] then Ok(r.(fc := Some(more)))
            else if Agreed(r, fcs).Ok? && fcs[0] == more then Agreed(r, fcs)
            else Err(Conflict)
  {
    var all := fcs + [more];
    if fcs != [] {
      assert all[0] == fcs[0] && fcs[0] in all && more in all;
      if exists a, b :: a in fcs && b in fcs && a != b {
        var a, b :| a in fcs && b in fcs && a != b;
        assert a in all && b in all;
      } else {
        assert forall x :: x in fcs ==> x == fcs[0];
        assert forall x :: x in all ==> x == fcs[0] || x == more;
      }
    }
  }

  /** An FC that is neither absent nor empty. */
  function Given(fc: Option<string>): seq<string> {
    if fc.Some? && fc.value != "" then [fc.value] else []
  }

  // ---------------------------------------------------------------- printing and parsing

  lemma NamesHaveNo(s: string, c: char)
    requires IsName(s) && !IsNameChar(c)
    ensures c !in s && s != "" && s != "." && s != ".."
  {
    assert !IsNameChar('.') && IsNameChar(s[0]);
  }

  /** Neither empty nor dots: what a normalised path is made of. */
  predicate IsStep(p: string) {
    p != "" && p != "." && p != ".."
  }

  lemma {:induction false} NormalisedNames(parts: seq<string>)
    requires forall p :: p in parts ==> IsName(p)
    ensures Normalised(parts) == parts
  {
    forall p | p in parts
      ensures IsStep(p)
    {
      NamesHaveNo(p, '.');
    }
    NormalisedSteps(parts);
  }

  predicate AllNames(parts: seq<string>) {
    forall p :: p in parts ==> IsName(p)
  }

  lemma NamesTail(parts: seq<string>)
    requires AllNames(parts) && parts != []
    ensures IsName(parts[0]) && AllNames(parts[1..])
  {
  }

  /** Names joined by `sep`: they begin and end with a name character and hold only those and `sep`. */
  lemma {:induction false} JoinedNames(parts: seq<string>, sep: char)
    requires AllNames(parts) && parts != []
    ensures var s := Join(parts, sep);
            && s != "" && IsNameChar(s[0]) && IsNameChar(s[|s| - 1])
            && forall i :: 0 <= i < |s| ==> IsNameChar(s[i]) || s[i] == sep
  {
    NamesTail(parts);
    if |parts| > 1 {
      JoinedNames(parts[1..], sep);
    }
  }

  lemma JoinedHasNo(parts: seq<string>, sep: char, c: char)
    requires AllNames(parts) && parts != [] && !IsNameChar(c) && c != sep
    ensures c !in Join(parts, sep)
  {
    JoinedNames(parts, sep);
  }

  lemma {:induction false} NonEmptyNames(parts: seq<string>)
    requires AllNames(parts)
    ensures NonEmpty(parts) == parts
  {
    if parts != [] {
      NamesTail(parts);
      NonEmptyNames(parts[1..]);
    }
  }

  lemma NamesSplit(parts: seq<string>, sep: char)
    requires AllNames(parts) && parts != [] && !IsNameChar(sep)
    ensures Split(Join(parts, sep), sep) == parts
  {
    forall p | p in parts
      ensures sep !in p
    {
      NamesHaveNo(p, sep);
    }
    SplitJoin(parts, sep);
  }

  lemma TwoChunks(ld: string, rest: string)
    requires '/' !in ld && '/' !in rest
    ensures Split(ld + "/" + rest, '/') == [ld, rest]
  {
    SplitPrefix(ld, '/', rest);
    SplitPrefix(rest, '/', "");
    assert ld + "/" + rest == ld + ['/'] + rest;
  }

  /** What a reference that names a logical node is made of. */
  lemma RefNames(r: ObjectRef)
    requires r.Valid() && r.ln.Some?
    ensures IsName(r.ld) && AllNames([r.ln.value] + r.path) && r.Parts() == [r.ld] + ([r.ln.value] + r.path)
  {
  }

  /** The IEC form of a reference that names a logical node, in its two chunks. */
  lemma IecChunks(r: ObjectRef)
    requires r.Valid() && r.ln.Some?
    ensures Split(r.Iec(), '/') == [r.ld, Join([r.ln.value] + r.path, '.')]
  {
    hide Split, Join;
    var names := [r.ln.value] + r.path;
    RefNames(r);
    JoinedHasNo(names, '.', '/');
    NamesHaveNo(r.ld, '/');
    TwoChunks(r.ld, Join(names, '.'));
  }

  lemma IecText(r: ObjectRef)
    requires r.Valid() && r.ln.Some?
    ensures var s := r.Iec();
            s != "" && IsNameChar(s[0]) && IsNameChar(s[|s| - 1]) && '$' !in s && '\n' !in s
  {
    hide Join;
    var names := [r.ln.value] + r.path;
    var j := Join(names, '.');
    RefNames(r);
    JoinedNames(names, '.');
    JoinedHasNo(names, '.', '$');
    JoinedHasNo(names, '.', '\n');
    NamesHaveNo(r.ld, '$');
    NamesHaveNo(r.ld, '\n');
    assert r.Iec() == r.ld + "/" + j;
    assert r.Iec()[|r.Iec()| - 1] == j[|j| - 1];
  }

  lemma TwoComponents(a: string, b: string)
    requires a != "." && a != ".." && b != "." && b != ".."
    ensures Components([a, b]) == NonEmpty(Split(a, '.')) + NonEmpty(Split(b, '.'))
  {
    assert [a, b][..1] == [a] && [a][..0] == [];
    assert Components([a]) == NonEmpty(Split(a, '.'));
  }

  lemma IecComponents(r: ObjectRef)
    requires r.Valid() && r.ln.Some?
    ensures Components([r.ld, Join([r.ln.value] + r.path, '.')]) == r.Parts()
  {
    hide Join, Components, Split, NonEmpty;
    var names := [r.ln.value] + r.path;
    var j := Join(names, '.');
    RefNames(r);
    JoinedNames(names, '.');
    NamesSplit(names, '.');
    NonEmptyNames(names);
    NamesHaveNo(r.ld, '.');
    SplitPrefix(r.ld, '.', "");
    NonEmptyNames([r.ld]);
    assert j[0] != '.';
    TwoComponents(r.ld, j);
  }

  lemma NoSuffix(s: string)
    requires s != "" && !IsSpace(s[0]) && !IsSpace(s[|s| - 1]) && s[|s| - 1] != ']'
    ensures SplitFc(s) == Ok((s, None))
  {
  }

  /** Two letters in brackets are the FC, in any case, or one that does not exist. */
  lemma BracketSplits(body: string, given: string)
    requires body != "" && !IsSpace(body[0]) && !IsSpace(body[|body| - 1]) && '\n' !in body
    requires |given| == 2 && IsLetter(given[0]) && IsLetter(given[1])
    ensures SplitFc(body + " [" + given + "]") ==
            if IsFc(Upper(given)) then Ok((body, Some(Upper(given)))) else Err(UnknownFc)
  {
    hide SplitFc, Upper, IsFc;
    var s := body + " [" + given + "]";
    var n := |s|;
    NothingToStrip(body);
    NothingToStrip(s);
    hide *;
    assert n == |body| + 5 && s[n - 1] == ']' && s[n - 4] == '[' && s[n - 3] == given[0] && s[n - 2] == given[1];
    assert s[n - 3..n - 1] == given;
    assert s[..n - 4] == body + " ";
    BracketAtEnd(s, body);
  }

  lemma BracketAtEnd(s: string, body: string)
    requires |s| >= 4 && Strip(s) == s && s[|s| - 1] == ']' && s[|s| - 4] == '[' && IsLetter(s[|s| - 3]) && IsLetter(s[|s| - 2])
    requires StripRight(s[..|s| - 4]) == body && '\n' !in body
    ensures SplitFc(s) == var fc := Upper(s[|s| - 3..|s| - 1]);
                          if IsFc(fc) then Ok((body, Some(fc))) else Err(UnknownFc)
  {
    hide Strip, StripRight, Upper, IsFc, IsLetter;
  }

  lemma AnyCase(fc: string, given: string)
    requires IsFc(fc) && |given| == 2
    requires forall i :: 0 <= i < 2 ==> given[i] == fc[i] || (given[i] as int == fc[i] as int + 'a' as int - 'A' as int)
    ensures Upper(given) == fc && IsLetter(given[0]) && IsLetter(given[1])
  {
    hide IsFc, Upper;
    FcNames(fc);
    UpperPair(given);
    assert given[0] == fc[0] || given[0] as int == fc[0] as int + 32;
    assert given[1] == fc[1] || given[1] as int == fc[1] as int + 32;
    assert fc == [fc[0], fc[1]];
  }

  lemma UpperPair(s: string)
    requires |s| == 2
    ensures Upper(s) == [if 'a' <= s[0] <= 'z' then (s[0] as int - 32) as char else s[0],
                         if 'a' <= s[1] <= 'z' then (s[1] as int - 32) as char else s[1]]
  {
    assert s[1..][1..] == "" && s[1..][0] == s[1];
  }

  lemma SuffixSplits(body: string, fc: string)
    requires body != "" && !IsSpace(body[0]) && !IsSpace(body[|body| - 1]) && '\n' !in body && IsFc(fc)
    ensures SplitFc(body + " [" + fc + "]") == Ok((body, Some(fc)))
  {
    hide SplitFc, Upper;
    FcNames(fc);
    BracketSplits(body, fc);
  }

  /** An FC given beside a text counts where the text has none, and has to agree with the one it has. */
  lemma FcAgreement(text: string, cwd: seq<string>, fc: string, knownLds: Option<set<string>>, native: bool)
    ensures var plain := ParseRef(text, cwd, None, knownLds, native);
            ParseRef(text, cwd, Some(fc), knownLds, native) ==
            if plain.Err? || fc == "" || plain.value.fc == Some(Upper(fc)) then plain
            else if plain.value.fc.None? then Ok(plain.value.(fc := Some(Upper(fc))))
            else Err(Conflict)
  {
    hide SplitFc, FromParts, PathComponents, ParseMms, Upper, IsFc, Agreed;
    var split := SplitFc(text);
    if split.Ok? && split.value.0 != "" {
      var body := split.value.0;
      var isNative := native && LooksNative(body);
      if !(isNative && '/' !in body && cwd == []) {
        var named := if isNative then ParseMms(if '/' in body then body else cwd[0] + "/" + body)
                     else FromParts(PathComponents(body, cwd, knownLds));
        if named.Ok? {
          var fcs := Given(split.value.1) + Given(if isNative then named.value.fc else None);
          assert fcs + Given(None) == fcs && fcs + Given(Some(Upper(""))) == fcs by {
            UpperEmpty(fc);
          }
          UpperEmpty(fc);
          AlsoAgreed(named.value, fcs, Upper(fc));
          assert ParseRef(text, cwd, None, knownLds, native) == Agreed(named.value, fcs);
          assert fc != "" ==> ParseRef(text, cwd, Some(fc), knownLds, native) == Agreed(named.value, fcs + [Upper(fc)]);
          if Agreed(named.value, fcs).Ok? {
            AgreedFc(named.value, fcs);
          } else {
            SomeAgreed(named.value, fcs);
          }
        }
      }
    }
  }

  lemma UpperEmpty(s: string)
    ensures Upper(s) == "" <==> s == ""
  {
  }

  lemma SomeAgreed(r: ObjectRef, fcs: seq<string>)
    requires Agreed(r, fcs).Err?
    ensures fcs != [] && Agreed(r, fcs) == Err(Conflict)
  {
  }

  lemma AgreedFc(r: ObjectRef, fcs: seq<string>)
    requires Agreed(r, fcs).Ok?
    ensures Agreed(r, fcs).value == r.(fc := if fcs == [] then None else Some(fcs[0]))
  {
  }

  /** The text of a reference splits into its IEC form and its FC. */
  lemma TextSplits(r: ObjectRef)
    requires r.Valid() && r.ln.Some?
    ensures SplitFc(r.Text()) == Ok((r.Iec(), r.fc))
  {
    hide SplitFc, ObjectRef.Iec;
    IecText(r);
    if r.fc.Some? {
      SuffixSplits(r.Iec(), r.fc.value);
      assert r.Iec() + (" [" + r.fc.value + "]") == r.Iec() + " [" + r.fc.value + "]";
    } else {
      NoSuffix(r.Iec());
      assert r.Iec() + "" == r.Iec();
    }
  }

  /** What parsing comes to when the text is no native name. */
  lemma ParsedPlainly(text: string, body: string, fc: Option<string>, cwd: seq<string>, knownLds: Option<set<string>>, native: bool,
                      r: Result<ObjectRef, RefError>)
    requires SplitFc(text) == Ok((body, fc)) && (fc.Some? ==> fc.value != "")
    requires body != "" && ('$' !in body || body[0] == '/')
    requires FromParts(PathComponents(body, cwd, knownLds)) == r
    ensures ParseRef(text, cwd, None, knownLds, native) == if r.Err? then r else Ok(r.value.(fc := fc))
  {
    hide SplitFc, FromParts, PathComponents;
  }

  lemma PartsAreTheRef(r: ObjectRef)
    requires r.Valid()
    ensures FromParts(r.Parts()) == Ok(r.(fc := None))
  {
  }

  /** Parsing the text of a reference that names a logical node gives it back from any shell location,
      when its logical device is known. */
  lemma TextRoundTrip(r: ObjectRef, cwd: seq<string>, knownLds: set<string>, native: bool)
    requires r.Valid() && r.ln.Some? && r.ld in knownLds
    ensures ParseRef(r.Text(), cwd, None, Some(knownLds), native) == Ok(r)
  {
    hide Split, SplitFc, FromParts, ParseRef, Components, Normalised, ObjectRef.Iec, ObjectRef.Parts, Join;
    TextSplits(r);
    IecChunks(r);
    IecText(r);
    IecComponents(r);
    RefNames(r);
    NamesHaveNo(r.ld, '.');
    SplitPrefix(r.ld, '.', "");
    ValidParts(r);
    NormalisedNames(r.Parts());
    PartsAreTheRef(r);
    NoSlash(r.Iec()[0]);
    assert [] + r.Parts() == r.Parts();
    assert PathComponents(r.Iec(), cwd, Some(knownLds)) == r.Parts();
    ParsedPlainly(r.Text(), r.Iec(), r.fc, cwd, Some(knownLds), native, Ok(r.(fc := None)));
  }

  lemma ValidParts(r: ObjectRef)
    requires r.Valid()
    ensures AllNames(r.Parts()) && r.Parts() != [] && (r.fc.Some? ==> r.fc.value != "")
  {
  }

  lemma NoSlash(c: char)
    requires IsNameChar(c)
    ensures c != '/'
  {
  }

  /** A text that is only the name of a logical device stands for that device at the root alone: anywhere
      else it is taken as relative. */
  lemma LdNameIsRelative(ld: string, cwd: seq<string>, knownLds: Option<set<string>>, native: bool)
    requires IsName(ld) && AllNames(cwd)
    ensures ParseRef(ld, cwd, None, knownLds, native) == Ok(ObjectRef(ld, None, [], None)) <==> cwd == []
  {
    hide Split, FromParts, ParseRef, Normalised, Components, SplitFc;
    NamesHaveNo(ld, '.');
    NamesHaveNo(ld, '/');
    NamesHaveNo(ld, '$');
    SplitPrefix(ld, '.', "");
    SplitPrefix(ld, '/', "");
    NoSuffix(ld);
    NonEmptyNames([ld]);
    OneComponent(ld);
    NormalisedNames(cwd + [ld]);
    assert [] + [ld] == [ld];
    assert PathComponents(ld, cwd, knownLds) == cwd + [ld];
    RelativeParts(cwd, ld);
    ParsedPlainly(ld, ld, None, cwd, knownLds, native, FromParts(cwd + [ld]));
  }

  lemma OneComponent(ld: string)
    requires ld != "." && ld != ".."
    ensures Components([ld]) == NonEmpty(Split(ld, '.'))
  {
  }

  lemma RelativeParts(cwd: seq<string>, ld: string)
    requires IsName(ld) && AllNames(cwd)
    ensures FromParts(cwd + [ld]) == Ok(ObjectRef(ld, None, [], None)) <==> cwd == []
  {
  }

  /** `n` times two dots. */
  function Climb(n: nat): (ups: seq<string>)
    ensures |ups| == n && forall p :: p in ups ==> p == ".."
  {
    if n == 0 then [] else Climb(n - 1) + [".."]
  }

  lemma {:induction false} Climbed(cwd: seq<string>, n: nat)
    requires AllNames(cwd)
    ensures Normalised(cwd + Climb(n)) == if n <= |cwd| then cwd[..|cwd| - n] else []
  {
    hide Normalised;
    if n == 0 {
      NormalisedNames(cwd);
      assert cwd + Climb(0) == cwd;
    } else {
      Climbed(cwd, n - 1);
      assert cwd + Climb(n) == (cwd + Climb(n - 1)) + [".."];
      AddOne(cwd + Climb(n - 1), "..");
    }
  }

  /** Names grouped into the chunks of a text, those of a chunk separated by dots. */
  predicate AllGroups(groups: seq<seq<string>>) {
    forall g :: g in groups ==> g != [] && AllNames(g)
  }

  function Chunks(groups: seq<seq<string>>): (chunks: seq<string>)
    ensures |chunks| == |groups| && forall i :: 0 <= i < |groups| ==> chunks[i] == Join(groups[i], '.')
  {
    if groups == [] then [] else Chunks(groups[..|groups| - 1]) + [Join(groups[|groups| - 1], '.')]
  }

  function Flat(groups: seq<seq<string>>): seq<string> {
    if groups == [] then [] else Flat(groups[..|groups| - 1]) + groups[|groups| - 1]
  }

  lemma {:induction false} FlatNames(groups: seq<seq<string>>)
    requires AllGroups(groups)
    ensures AllNames(Flat(groups)) && (groups != [] ==> Flat(groups) != [])
  {
    if groups != [] {
      assert groups[|groups| - 1] in groups;
      FlatNames(groups[..|groups| - 1]);
    }
  }

  lemma AddComponent(before: seq<string>, chunk: string)
    ensures Components(before + [chunk]) ==
            Components(before) + if chunk == "." || chunk == ".." then [chunk] else NonEmpty(Split(chunk, '.'))
  {
    assert (before + [chunk])[..|before|] == before;
  }

  lemma {:induction false} ClimbComponents(n: nat)
    ensures Components(Climb(n)) == Climb(n)
  {
    if n > 0 {
      ClimbComponents(n - 1);
      AddComponent(Climb(n - 1), "..");
    }
  }

  /** A chunk of names is no dots, has no slash, and splits into its names. */
  lemma GroupChunk(names: seq<string>)
    requires AllNames(names) && names != []
    ensures var chunk := Join(names, '.');
            && IsChunk(chunk) && chunk[0] != '.' && chunk != "." && chunk != ".."
            && Split(chunk, '.') == names && NonEmpty(names) == names
            && ('.' in chunk <==> |names| > 1)
  {
    hide Split, NonEmpty, IsName;
    var chunk := Join(names, '.');
    JoinedNames(names, '.');
    JoinedHasNo(names, '.', '/');
    JoinedHasNo(names, '.', '$');
    NamesSplit(names, '.');
    NonEmptyNames(names);
    JoinSplit(chunk, '.');
    assert chunk[0] != '.';
  }

  lemma {:induction false} GroupComponents(n: nat, groups: seq<seq<string>>)
    requires AllGroups(groups)
    ensures Components(Climb(n) + Chunks(groups)) == Climb(n) + Flat(groups)
  {
    hide Components, Split, NonEmpty, Join, Climb, AllNames;
    if groups == [] {
      ClimbComponents(n);
      assert Climb(n) + Chunks(groups) == Climb(n) && Climb(n) + Flat(groups) == Climb(n);
    } else {
      var k := |groups| - 1;
      assert groups[k] in groups;
      GroupComponents(n, groups[..k]);
      GroupChunk(groups[k]);
      AddComponent(Climb(n) + Chunks(groups[..k]), Join(groups[k], '.'));
      assert Climb(n) + Chunks(groups) == (Climb(n) + Chunks(groups[..k])) + [Join(groups[k], '.')];
      assert Climb(n) + Flat(groups) == (Climb(n) + Flat(groups[..k])) + groups[k];
    }
  }

  predicate IsChunk(p: string) {
    && p != "" && (IsNameChar(p[0]) || p[0] == '.') && (IsNameChar(p[|p| - 1]) || p[|p| - 1] == '.')
    && '/' !in p && '$' !in p
  }

  lemma {:induction false} JoinedChunks(chunks: seq<string>)
    requires chunks != [] && forall p :: p in chunks ==> IsChunk(p)
    ensures var s := Join(chunks, '/');
            && s != "" && (IsNameChar(s[0]) || s[0] == '.') && (IsNameChar(s[|s| - 1]) || s[|s| - 1] == '.')
            && '$' !in s
  {
    assert IsChunk(chunks[0]);
    if |chunks| > 1 {
      JoinedChunks(chunks[1..]);
    }
  }

  lemma RelativeChunks(n: nat, groups: seq<seq<string>>)
    requires AllGroups(groups)
    ensures forall p :: p in Climb(n) + Chunks(groups) ==> IsChunk(p)
  {
    hide AllNames, Join;
    forall p | p in Climb(n) + Chunks(groups)
      ensures IsChunk(p)
    {
      if p !in Climb(n) {
        var i :| 0 <= i < |groups| && p == Join(groups[i], '.');
        assert groups[i] in groups;
        GroupChunk(groups[i]);
      }
    }
  }

  /** A text that climbs nowhere and begins with the name of a known logical device is taken from the root; without
      the logical devices known, so is one with dots after its first slash. */
  predicate FromRoot(n: nat, groups: seq<seq<string>>, knownLds: Option<set<string>>) {
    && n == 0 && |groups| > 1 && groups[0] != []
    && if knownLds.Some? then groups[0][0] in knownLds.value else exists i :: 0 < i < |groups| && |groups[i]| > 1
  }

  /** Any other text leads `n` levels up from the shell's location, or to the root, and from there down its
      names, whether slashes or dots separate them. */
  lemma RelativeText(n: nat, groups: seq<seq<string>>, cwd: seq<string>, knownLds: Option<set<string>>, native: bool)
    requires AllGroups(groups) && AllNames(cwd) && n + |groups| > 0
    ensures var from := if FromRoot(n, groups, knownLds) || n > |cwd| then [] else cwd[..|cwd| - n];
            ParseRef(Join(Climb(n) + Chunks(groups), '/'), cwd, None, knownLds, native) == FromParts(from + Flat(groups))
  {
    hide Split, SplitFc, FromParts, ParseRef, PathComponents, Components, Normalised, Join, Climb, AllNames, AllGroups, IsChunk, FromRoot, Chunks, Flat;
    var chunks := Climb(n) + Chunks(groups);
    var text := Join(chunks, '/');
    RelativeChunks(n, groups);
    JoinedChunks(chunks);
    NoSuffix(text);
    RelativeComponents(n, groups, cwd, knownLds);
    ParsedPlainly(text, text, None, cwd, knownLds, native, FromParts(PathComponents(text, cwd, knownLds)));
    FlatNames(groups);
    ClimbedAndDown(cwd, n, Flat(groups));
    assert [] + Flat(groups) == Flat(groups);
    NamesBelow([], Flat(groups)) by {
      NoNames();
    }
  }

  lemma NoNames()
    ensures AllNames([])
  {
  }

  lemma NamesBelow(a: seq<string>, b: seq<string>)
    requires AllNames(a) && AllNames(b)
    ensures Normalised(a + b) == a + b
  {
    hide Normalised, IsName;
    NormalisedNames(a + b);
  }

  lemma NamesBefore(names: seq<string>, n: nat)
    requires AllNames(names)
    ensures AllNames(if n <= |names| then names[..|names| - n] else [])
  {
  }

  lemma ClimbedAndDown(cwd: seq<string>, n: nat, names: seq<string>)
    requires AllNames(names) && AllNames(cwd)
    ensures Normalised(cwd + (Climb(n) + names)) == (if n <= |cwd| then cwd[..|cwd| - n] else []) + names
  {
    hide Normalised, AllNames, Climb;
    var ups := Climb(n);
    Climbed(cwd, n);
    NormalisedOnwards(cwd + ups, names);
    assert cwd + (ups + names) == (cwd + ups) + names;
    NamesBefore(cwd, n);
    NamesBelow(if n <= |cwd| then cwd[..|cwd| - n] else [], names);
  }

  lemma RelativeComponents(n: nat, groups: seq<seq<string>>, cwd: seq<string>, knownLds: Option<set<string>>)
    requires AllGroups(groups) && n + |groups| > 0 && Join(Climb(n) + Chunks(groups), '/') != ""
    requires Join(Climb(n) + Chunks(groups), '/')[0] != '/'
    ensures PathComponents(Join(Climb(n) + Chunks(groups), '/'), cwd, knownLds) ==
            Normalised(if FromRoot(n, groups, knownLds) then Flat(groups) else cwd + (Climb(n) + Flat(groups)))
  {
    hide Split, Components, Normalised, Join, AllNames, IsChunk, Flat;
    var chunks := Climb(n) + Chunks(groups);
    RelativeChunks(n, groups);
    forall p | p in chunks
      ensures '/' !in p
    {
      NoSlashIn(p);
    }
    SplitJoin(chunks, '/');
    GroupComponents(n, groups);
    assert [] + Flat(groups) == Flat(groups) && (n == 0 ==> chunks == Chunks(groups) && Climb(n) + Flat(groups) == Flat(groups));
    assert cwd == [] ==> cwd + (Climb(n) + Flat(groups)) == Climb(n) + Flat(groups);
    if n > 0 {
      assert Climb(n)[0] in Climb(n) && chunks[0] == "..";
    } else {
      forall i | 0 <= i < |groups|
        ensures groups[i] != [] && ('.' in chunks[i] <==> |groups[i]| > 1)
      {
        assert groups[i] in groups;
        GroupChunk(groups[i]);
      }
      GroupChunk(groups[0]);
      NoDotsFirst(groups[0]);
      assert chunks == Chunks(groups);
      if exists i :: 0 < i < |chunks| && '.' in chunks[i] {
        var i :| 0 < i < |chunks| && '.' in chunks[i];
        assert |groups[i]| > 1;
      }
    }
  }

  lemma NoDotsFirst(names: seq<string>)
    requires AllNames(names) && names != []
    ensures names[0] != "." && names[0] != ".."
  {
    NamesTail(names);
    NamesHaveNo(names[0], '.');
  }

  lemma NoSlashIn(p: string)
    requires IsChunk(p)
    ensures '/' !in p
  {
  }

  lemma {:induction false} SplitBothNames(parts: seq<string>)
    requires AllNames(parts)
    ensures SplitBoth(parts) == parts
  {
    if parts != [] {
      NamesTail(parts);
      NamesHaveNo(parts[0], '.');
      SplitPrefix(parts[0], '.', "");
      SplitBothNames(parts[1..]);
      assert parts == [parts[0]] + parts[1..];
    }
  }

  /** The shell path of a reference stands for it, the FC aside, from any location. */
  lemma ShellPathRoundTrip(r: ObjectRef, cwd: seq<string>, knownLds: Option<set<string>>, native: bool)
    requires r.Valid()
    ensures ParseRef(r.ShellPath(), cwd, None, knownLds, native) == Ok(r.(fc := None))
  {
    hide Split, FromParts, ParseRef, Normalised, SplitBoth, SplitFc, Join, ObjectRef.Parts;
    var parts, text := r.Parts(), r.ShellPath();
    var joined := Join(parts, '/');
    ValidParts(r);
    JoinedNames(parts, '/');
    NoSuffix(text);
    assert text[1..] == joined;
    FirstName(r);
    assert DropSlashes(joined) == joined && DropSlashes(text) == joined;
    NamesSplit(parts, '/');
    SplitBothNames(parts);
    NormalisedNames(parts);
    PartsAreTheRef(r);
    assert PathComponents(text, cwd, knownLds) == parts;
    ParsedPlainly(text, text, None, cwd, knownLds, native, Ok(r.(fc := None)));
  }

  lemma FirstName(r: ObjectRef)
    requires r.Valid()
    ensures Join(r.Parts(), '/') != "" && Join(r.Parts(), '/')[0] != '/'
  {
    ValidParts(r);
    JoinedNames(r.Parts(), '/');
  }

  /** The MMS name of data in a logical node stands for it and its FC. */
  lemma MmsRoundTrip(r: ObjectRef)
    requires r.Valid() && r.ln.Some? && (r.path != [] ==> r.fc.Some?)
    ensures MmsItem(r).Ok? && ParseMms(r.ld + "/" + MmsItem(r).value) == Ok(r)
  {
    hide Split;
    var parts := [r.ln.value] + (if r.fc.Some? then [r.fc.value] else []) + r.path;
    var item := MmsItem(r).value;
    forall p | p in parts
      ensures IsName(p)
    {
      if r.fc.Some? && p == r.fc.value {
        FcNames(p);
      } else {
        assert p in r.Parts();
      }
    }
    ItemIsJoined(r, parts);
    assert r.ld in r.Parts();
    NamesHaveNo(r.ld, '/');
    JoinedHasNo(parts, '$', '/');
    SplitPrefix(r.ld, '/', item);
    SplitPrefix(item, '/', "");
    NamesSplit(parts, '$');
    assert r.ld + "/" + item == r.ld + ['/'] + item;
    assert [r.ld, item][1..] == [item];
    if r.fc.Some? {
      FcNames(r.fc.value);
      assert parts[1] == r.fc.value && parts[2..] == r.path;
    }
  }

  /** A text without a logical device is no MMS name. */
  lemma MmsRefused(text: string)
    ensures ParseMms(text) == Err(NotMms) <==> '/' !in text || text[0] == '/'
  {
    hide Upper;
    JoinSplit(text, '/');
    var chunks := Split(text, '/');
    if |chunks| > 1 && text[0] != '/' {
      assert chunks[0] != "";
    }
  }

  /** What the MMS name of a reference is made of. */
  lemma ItemText(r: ObjectRef)
    requires r.Valid() && r.ln.Some? && r.fc.Some?
    ensures MmsItem(r).Ok?
    ensures var item := MmsItem(r).value;
            && item != "" && IsNameChar(item[0]) && IsNameChar(item[|item| - 1])
            && '/' !in item && '\n' !in item && '$' in item
  {
    hide Join, Split;
    var parts := [r.ln.value] + [r.fc.value] + r.path;
    forall p | p in parts
      ensures IsName(p)
    {
      if p == r.fc.value {
        FcNames(p);
      } else {
        assert p in r.Parts();
      }
    }
    ItemIsJoined(r, parts);
    JoinedNames(parts, '$');
    JoinedHasNo(parts, '$', '/');
    JoinedHasNo(parts, '$', '\n');
    NamesSplit(parts, '$');
    JoinSplit(MmsItem(r).value, '$');
  }

  /** Where MMS names are accepted, that of a reference stands for it from any location, with the FC said again or
      not; without its logical device, from within that device. */
  lemma NativeRoundTrip(r: ObjectRef, cwd: seq<string>, knownLds: Option<set<string>>, again: string)
    requires r.Valid() && r.ln.Some? && r.fc.Some? && IsFc(again)
    ensures MmsItem(r).Ok?
    ensures var text := r.ld + "/" + MmsItem(r).value;
            && ParseRef(text, cwd, None, knownLds, true) == Ok(r)
            && ParseRef(text + " [" + again + "]", cwd, None, knownLds, true) == if again == r.fc.value then Ok(r) else Err(Conflict)
    ensures ParseRef(MmsItem(r).value, [r.ld] + cwd, None, knownLds, true) == Ok(r)
    ensures ParseRef(MmsItem(r).value, [], None, knownLds, true) == Err(NeedsLd)
  {
    hide Split, SplitFc, Upper, FromParts, PathComponents, Join, ParseRef, MmsItem, ParseMms;
    ItemText(r);
    MmsRoundTrip(r);
    var item := MmsItem(r).value;
    var text := r.ld + "/" + item;
    RefNames(r);
    NamesHaveNo(r.ld, '/');
    NamesHaveNo(r.ld, '\n');
    assert IsNameChar(text[0]) && text[|text| - 1] == item[|item| - 1];
    FcNames(again);
    NoSuffix(text);
    NoSuffix(item);
    SuffixSplits(text, again);
    ParsedNatively(text, text, None, cwd, knownLds, r);
    ParsedNatively(text + " [" + again + "]", text, Some(again), cwd, knownLds, r);
    ParsedNatively(item, item, None, [r.ld] + cwd, knownLds, r);
    ParsedNatively(item, item, None, [], knownLds, r);
  }

  /** What parsing comes to when the text is a native name. */
  lemma ParsedNatively(text: string, body: string, fc: Option<string>, cwd: seq<string>, knownLds: Option<set<string>>, r: ObjectRef)
    requires SplitFc(text) == Ok((body, fc)) && body != "" && LooksNative(body) && r.Valid() && r.fc.Some? && (fc.Some? ==> fc.value != "")
    requires '/' in body || cwd != [] ==> ParseMms(if '/' in body then body else cwd[0] + "/" + body) == Ok(r)
    ensures ParseRef(text, cwd, None, knownLds, true) ==
            if '/' !in body && cwd == [] then Err(NeedsLd) else if fc.None? || fc == r.fc then Ok(r) else Err(Conflict)
  {
    hide SplitFc, FromParts, PathComponents, ParseMms, Upper, IsName, IsFc, Agreed;
    ValidParts(r);
    var fcs := Given(fc);
    AlsoAgreed(r, fcs, r.fc.value);
    assert Given(r.fc) == [r.fc.value] && fcs + [r.fc.value] + Given(None) == fcs + [r.fc.value];
    if fc.Some? {
      AlsoAgreed(r, [], fc.value);
      assert [] + [fc.value] == fcs;
    }
  }

  lemma ItemIsJoined(r: ObjectRef, parts: seq<string>)
    requires r.ln.Some? && (r.path != [] ==> r.fc.Some?)
    requires parts == [r.ln.value] + (if r.fc.Some? then [r.fc.value] else []) + r.path
    ensures MmsItem(r) == Ok(Join(parts, '$'))
  {
    if r.path == [] {
      if r.fc.Some? {
        assert parts == [r.ln.value, r.fc.value] && parts[1..] == [r.fc.value];
      } else {
        assert parts == [r.ln.value];
      }
    } else {
      assert parts == [r.ln.value, r.fc.value] + r.path;
    }
  }

  // ---------------------------------------------------------------- datasets

  /** A dataset outside any logical node has an empty `ln`. */
  datatype DatasetRef = DatasetRef(ld: string, ln: string, name: string)

  function DatasetItem(ds: DatasetRef): string {
    if ds.ln != "" then ds.ln + "$" + ds.name else ds.name
  }

  function DatasetFromItem(ld: string, item: string): DatasetRef {
    var parts := Split(item, '$');
    if |parts| == 1 then DatasetRef(ld, "", item) else DatasetRef(ld, parts[0], Join(parts[1..], '$'))
  }

  lemma {:induction false} JoinSplit(s: string, c: char)
    ensures Join(Split(s, c), c) == s
    ensures |Split(s, c)| == 1 <==> c !in s
  {
    if s != "" {
      JoinSplit(s[1..], c);
      var rest := Split(s[1..], c);
      assert s == [s[0]] + s[1..];
      if s[0] == c {
        assert ([""] + rest)[1..] == rest;
        assert Join([""] + rest, c) == "" + [c] + Join(rest, c);
      } else {
        var parts := [[s[0]] + rest[0]] + rest[1..];
        assert parts[1..] == rest[1..];
        assert rest == [rest[0]] + rest[1..];
        assert Join(parts, c) == [s[0]] + Join(rest, c);
      }
    }
  }

  /** A dataset's item name stands for it exactly when the node's name has no separator, and without a
      node the dataset's name has none. */
  lemma DatasetRoundTrip(ds: DatasetRef)
    ensures DatasetFromItem(ds.ld, DatasetItem(ds)) == ds <==> '$' !in ds.ln && (ds.ln == "" ==> '$' !in ds.name)
  {
    var item := DatasetItem(ds);
    JoinSplit(item, '$');
    if ds.ln == "" {
      if '$' in ds.name && Split(item, '$')[0] == "" {
        var parts := Split(item, '$');
        assert |Join(parts, '$')| == 1 + |Join(parts[1..], '$')|;
      }
    } else if '$' !in ds.ln {
      SplitPrefix(ds.ln, '$', ds.name);
      JoinSplit(ds.name, '$');
      assert item == ds.ln + ['$'] + ds.name;
      assert Split(item, '$')[1..] == Split(ds.name, '$');
    }
  }
}
