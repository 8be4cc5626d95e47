/** Paths inside a site: validation, parent and name, and "below" as SQL and `startswith` see it. */
module Paths {
  import opened Common
  import opened Naming

  type Path = string

  // ---- segments ----

  /** `str.split("/")`. */
  function Split(s: string): (segments: seq<string>)
    ensures |segments| >= 1
    ensures forall k :: 0 <= k < |segments| ==> '/' !in segments[k]
  {
    if s == "" then [""]
    else
      var rest := Split(s[1..]);
      if s[0] == '/' then [""] + rest else [[s[0]] + rest[0]] + rest[1..]
  }

  /** `"/".join`. */
  function Join(segments: seq<string>): string
    requires |segments| >= 1
  {
    if |segments| == 1 then segments[0] else segments[0] + "/" + Join(segments[1..])
  }

  lemma {:induction false} JoinSplit(s: string)
    ensures Join(Split(s)) == s
  {
    if s != "" {
      JoinSplit(s[1..]);
      var rest := Split(s[1..]);
      if s[0] == '/' {
        assert ([""] + rest)[1..] == rest;
      } else {
        var segments := [[s[0]] + rest[0]] + rest[1..];
        assert segments[1..] == rest[1..];
        assert s == [s[0]] + s[1..];
        assert |rest| > 1 ==> Join(segments) == [s[0]] + (rest[0] + "/" + Join(rest[1..]));
      }
    }
  }

  lemma {:induction false} SplitWithoutSlash(s: string)
    requires '/' !in s
    ensures Split(s) == [s]
  {
    if s != "" {
      SplitWithoutSlash(s[1..]);
      assert s == [s[0]] + s[1..];
    }
  }

  lemma SplitCons(c: char, s: string)
    ensures Split([c] + s) == if c == '/' then [""] + Split(s) else [[c] + Split(s)[0]] + Split(s)[1..]
  {
  }

  lemma HeadOfConcat(first: string, rest: seq<string>, more: seq<string>)
    requires |rest| >= 1
    ensures [first + rest[0]] + rest[1..] + more == [first + (rest + more)[0]] + (rest + more)[1..]
  {
  }

  lemma EmptyHeadOfConcat(rest: seq<string>, more: seq<string>)
    ensures [""] + rest + more == [""] + (rest + more)
  {
  }

  lemma SplitConsConcat(c: char, rest: string, b: string)
    requires Split(rest + "/" + b) == Split(rest) + Split(b)
    ensures Split([c] + rest + "/" + b) == Split([c] + rest) + Split(b)
  {
    assert [c] + rest + "/" + b == [c] + (rest + "/" + b);
    SplitCons(c, rest);
    SplitCons(c, rest + "/" + b);
    EmptyHeadOfConcat(Split(rest), Split(b));
    HeadOfConcat([c], Split(rest), Split(b));
  }

  lemma {:induction false} SplitConcat(a: string, b: string)
    ensures Split(a + "/" + b) == Split(a) + Split(b)
  {
    if a == "" {
      assert a + "/" + b == ['/'] + b;
      SplitCons('/', b);
    } else {
      assert a == [a[0]] + a[1..];
      SplitConcat(a[1..], b);
      SplitConsConcat(a[0], a[1..], b);
    }
  }

  // ---- parent and name ----

  /** The position of the last slash, or -1. */
  function LastSlash(s: string): (i: int)
    ensures -1 <= i < |s|
    ensures i >= 0 ==> s[i] == '/'
    ensures forall k :: i < k < |s| ==> s[k] != '/'
  {
    if s == "" then -1
    else if s[|s| - 1] == '/' then |s| - 1
    else LastSlash(s[..|s| - 1])
  }

  /** `path.rpartition("/")[0]`. */
  function Parent(path: Path): (parent: Path)
    ensures path != "" ==> |parent| < |path|
  {
    var i := LastSlash(path);
    if i < 0 then "" else path[..i]
  }

  /** `path.rpartition("/")[2]`. */
  function Name(path: Path): string {
    path[LastSlash(path) + 1..]
  }

  /** An entry of a folder: `f"{folder}/{name}" if folder else name`. */
  function Child(folder: Path, name: string): Path {
    if folder == "" then name else folder + "/" + name
  }

  lemma ChildParts(folder: Path, name: string)
    requires '/' !in name && name != ""
    ensures Parent(Child(folder, name)) == folder && Name(Child(folder, name)) == name
  {
    var p := Child(folder, name);
    if folder == "" {
      assert forall k :: 0 <= k < |p| ==> p[k] in name;
    } else {
      assert p[|folder|] == '/';
      assert forall k :: |folder| < k < |p| ==> p[k] == name[k - |folder| - 1] && p[k] in name;
      assert LastSlash(p) == |folder|;
    }
  }

  /** Parent and name rebuild a path that does not begin with a slash. */
  lemma ChildOfParent(path: Path)
    requires path != "" && path[0] != '/'
    ensures Child(Parent(path), Name(path)) == path && '/' !in Name(path)
  {
  }

  // ---- validation ----

  predicate Forbidden(c: char) {
    c == '\\' || c < ' ' || c as int == 0x7f
  }

  predicate AnyForbidden(s: string) {
    exists i :: 0 <= i < |s| && Forbidden(s[i])
  }

  function Utf8Length(s: string): nat {
    if s == "" then 0
    else
      var code := s[0] as int;
      (if code < 0x80 then 1 else if code < 0x800 then 2 else if code < 0x1_0000 then 3 else 4)
      + Utf8Length(s[1..])
  }

  predicate GoodSegment(segment: string) {
    segment != "" && segment != "." && segment != ".." && Utf8Length(segment) <= SEGMENT_MAX_BYTES
  }

  datatype PathError =
    | ForbiddenCharacter | SiteRoot | PathTooLong | EmptySegment | DotSegment | SegmentTooLong

  /** What the loop over the segments finds wrong first. */
  function FirstBadSegment(segments: seq<string>): (e: Option<PathError>)
    ensures e.None? <==> forall k :: 0 <= k < |segments| ==> GoodSegment(segments[k])
  {
    if segments == [] then None
    else if segments[0] == "" then Some(EmptySegment)
    else if segments[0] == "." || segments[0] == ".." then Some(DotSegment)
    else if Utf8Length(segments[0]) > SEGMENT_MAX_BYTES then Some(SegmentTooLong)
    else FirstBadSegment(segments[1..])
  }

  function ValidateSitePath(path: string, allowRoot: bool): Result<Path, PathError> {
    if AnyForbidden(path) then Err(ForbiddenCharacter)
    else
      var stripped := Strip(path, '/');
      if stripped == "" then (if allowRoot then Ok("") else Err(SiteRoot))
      else if |stripped| > PATH_MAX_LENGTH then Err(PathTooLong)
      else
        var segments := Split(stripped);
        match FirstBadSegment(segments)
        case Some(e) => Err(e)
        case None => Ok(Join(segments))
  }

  /** A backslash, or one of the control characters of ASCII. */
  predicate HasControl(s: string) {
    exists i :: 0 <= i < |s| && (s[i] == '\\' || s[i] as int <= 31 || s[i] as int == 127)
  }

  predicate CanonicalSegment(segment: string) {
    segment !in {"", ".", ".."} && Utf8Length(segment) <= 255
  }

  /** What a canonical path is, without validating one. */
  predicate Canonical(path: Path) {
    1 <= |path| <= 1024 && !HasControl(path)
    && forall k :: 0 <= k < |Split(path)| ==> CanonicalSegment(Split(path)[k])
  }

  lemma ForbiddenIsControl(s: string)
    ensures AnyForbidden(s) <==> HasControl(s)
  {
    if AnyForbidden(s) {
      var i :| 0 <= i < |s| && Forbidden(s[i]);
      assert s[i] == '\\' || s[i] as int <= 31 || s[i] as int == 127;
    }
    if HasControl(s) {
      var i :| 0 <= i < |s| && (s[i] == '\\' || s[i] as int <= 31 || s[i] as int == 127);
      assert Forbidden(s[i]);
    }
  }

  lemma LeadingSlashMakesEmptySegment(rest: string)
    ensures Split("/" + rest)[0] == ""
  {
  }

  lemma TrailingSlashMakesEmptySegment(front: string)
    ensures "" in Split(front + "/")
  {
    SplitConcat(front, "");
    assert front + "/" + "" == front + "/";
    assert Split("") == [""] && "" in Split("");
  }

  lemma CanonicalEnds(path: Path)
    requires Canonical(path)
    ensures path[0] != '/' && path[|path| - 1] != '/'
  {
    var n := |path| - 1;
    LeadingSlashMakesEmptySegment(path[1..]);
    TrailingSlashMakesEmptySegment(path[..n]);
    assert path == [path[0]] + path[1..] && path == path[..n] + [path[n]];
  }

  function Slashes(n: nat): (s: string)
    ensures |s| == n && forall i :: 0 <= i < n ==> s[i] == '/'
  {
    if n == 0 then "" else "/" + Slashes(n - 1)
  }

  /** A path is accepted exactly when it is a canonical path, or where the root is allowed nothing,
      between slashes; the answer is that path. */
  lemma ValidateSitePathExact(path: string, allowRoot: bool, answer: Path)
    ensures ValidateSitePath(path, allowRoot) == Ok(answer)
            <==> (Canonical(answer) || (allowRoot && answer == ""))
                 && exists i: nat, j: nat :: path == Slashes(i) + answer + Slashes(j)
  {
    var stripped := Strip(path, '/');
    var front, back := StripParts(path, '/');
    assert path == Slashes(front) + stripped + Slashes(back);
    JoinSplit(stripped);
    ForbiddenIsControl(path);
    ForbiddenIsControl(stripped);
    if ValidateSitePath(path, allowRoot) == Ok(answer) {
      assert answer == stripped;
      forall k | 0 <= k < |stripped| ensures !Forbidden(stripped[k]) {
        assert stripped[k] == path[front + k];
      }
    }
    if (Canonical(answer) || (allowRoot && answer == ""))
       && exists i: nat, j: nat :: path == Slashes(i) + answer + Slashes(j) {
      var i: nat, j: nat :| path == Slashes(i) + answer + Slashes(j);
      AcceptedBetweenSlashes(path, allowRoot, answer, i, j);
    }
  }

  lemma AcceptedBetweenSlashes(path: string, allowRoot: bool, answer: Path, i: nat, j: nat)
    requires Canonical(answer) || (allowRoot && answer == "")
    requires path == Slashes(i) + answer + Slashes(j)
    ensures ValidateSitePath(path, allowRoot) == Ok(answer)
  {
    if answer != "" { CanonicalEnds(answer); }
    StripBetweenSlashes(answer, i, j);
    StripNothing(answer, '/');
    ForbiddenBetweenSlashes(answer, i, j);
    JoinSplit(answer);
  }

  /** Whether a segment is refused, and why. */
  predicate RefusedFor(segment: string, e: PathError) {
    match e
    case EmptySegment => segment == ""
    case DotSegment => segment == "." || segment == ".."
    case SegmentTooLong => Utf8Length(segment) >= 256
    case _ => false
  }

  /** The segment at `k` is refused for that, and all before it are good. */
  predicate BadAt(segments: seq<string>, e: PathError, k: nat) {
    k < |segments| && RefusedFor(segments[k], e) && forall j :: 0 <= j < k ==> CanonicalSegment(segments[j])
  }

  lemma {:induction false} FirstBadSegmentExact(segments: seq<string>, e: PathError)
    ensures FirstBadSegment(segments) == Some(e) <==> exists k: nat :: BadAt(segments, e, k)
  {
    if segments != [] {
      FirstBadSegmentExact(segments[1..], e);
      if CanonicalSegment(segments[0]) {
        assert FirstBadSegment(segments) == FirstBadSegment(segments[1..]);
        BadLater(segments, e);
      } else {
        BadNow(segments, e);
      }
    }
  }

  lemma BadNow(segments: seq<string>, e: PathError)
    requires segments != [] && !CanonicalSegment(segments[0])
    ensures FirstBadSegment(segments) == Some(e) <==> RefusedFor(segments[0], e)
    ensures (exists k: nat :: BadAt(segments, e, k)) <==> RefusedFor(segments[0], e)
  {
    DotsAreShort();
    if RefusedFor(segments[0], e) { assert BadAt(segments, e, 0); }
    if k: nat :| BadAt(segments, e, k) { GoodBefore(segments, e, k); }
  }

  lemma DotsAreShort()
    ensures Utf8Length("") == 0 && Utf8Length(".") == 1 && Utf8Length("..") == 2
    ensures "" != "." && "." != ".." && "" != ".."
  {
    assert "."[1..] == "" && ".."[1..] == ".";
  }

  lemma GoodIsNotRefused(segment: string, e: PathError)
    ensures CanonicalSegment(segment) ==> !RefusedFor(segment, e)
  {
  }

  lemma GoodBefore(segments: seq<string>, e: PathError, k: nat)
    requires BadAt(segments, e, k)
    ensures k == 0 || CanonicalSegment(segments[0])
  {
    if k > 0 { assert CanonicalSegment(segments[0]); }
  }

  lemma BadLater(segments: seq<string>, e: PathError)
    requires segments != [] && CanonicalSegment(segments[0])
    ensures (exists k: nat :: BadAt(segments, e, k)) <==> exists k: nat :: BadAt(segments[1..], e, k)
  {
    var rest := segments[1..];
    if k: nat :| BadAt(rest, e, k) {
      assert forall j :: 0 < j < k + 1 ==> segments[j] == rest[j - 1];
      assert BadAt(segments, e, k + 1);
    }
    if k: nat :| BadAt(segments, e, k) {
      assert k > 0 by { GoodIsNotRefused(segments[0], e); }
      assert forall j :: 0 <= j < k - 1 ==> rest[j] == segments[j + 1];
      assert BadAt(rest, e, k - 1);
    }
  }

  /** Neither begins nor ends with a slash. */
  predicate Unpadded(s: string) {
    s != "" ==> s[0] != '/' && s[|s| - 1] != '/'
  }

  /** Why a path is refused: what it is between slashes decides, and a control character before all else. */
  lemma ValidateSitePathErrors(i: nat, inner: string, j: nat, allowRoot: bool, e: PathError)
    requires Unpadded(inner)
    ensures var path := Slashes(i) + inner + Slashes(j);
            ValidateSitePath(path, allowRoot) == Err(e)
            <==> if HasControl(path) then e == ForbiddenCharacter
                 else if inner == "" then e == SiteRoot && !allowRoot
                 else if |inner| > 1024 then e == PathTooLong
                 else exists k: nat :: BadAt(Split(inner), e, k)
  {
    var path := Slashes(i) + inner + Slashes(j);
    assert Strip(path, '/') == inner by {
      StripBetweenSlashes(inner, i, j);
      StripNothing(inner, '/');
    }
    ForbiddenIsControl(path);
    FirstBadSegmentExact(Split(inner), e);
    ValidateInner(path, inner, allowRoot, e);
  }

  lemma ValidateInner(path: string, inner: string, allowRoot: bool, e: PathError)
    requires Strip(path, '/') == inner
    ensures ValidateSitePath(path, allowRoot) == Err(e)
            <==> if AnyForbidden(path) then e == ForbiddenCharacter
                 else if inner == "" then e == SiteRoot && !allowRoot
                 else if |inner| > 1024 then e == PathTooLong
                 else FirstBadSegment(Split(inner)) == Some(e)
  {
  }

  /** A path with a backslash or a control character anywhere is refused for that; no other path is. */
  lemma ControlsAreRefused(path: string, allowRoot: bool)
    ensures ValidateSitePath(path, allowRoot) == Err(ForbiddenCharacter) <==> HasControl(path)
    ensures ValidateSitePath(path, allowRoot).Ok? ==>
              !HasControl(path) && !HasControl(ValidateSitePath(path, allowRoot).value)
  {
    ForbiddenIsControl(path);
    FirstBadSegmentExact(Split(Strip(path, '/')), ForbiddenCharacter);
    var r := ValidateSitePath(path, allowRoot);
    if r.Ok? { ValidateSitePathExact(path, allowRoot, r.value); }
  }

  function Power2(n: nat): nat {
    if n == 0 then 1 else 2 * Power2(n - 1)
  }

  /** A character takes the fewest bytes whose payload holds it: seven bits in one byte, five for each byte and one
      in more (section 3 of RFC 3629). A text takes what its parts take. */
  lemma {:induction false} Utf8LengthExact(a: string, b: string, c: char, bytes: nat)
    ensures 1 <= Utf8Length([c]) <= 4 && Utf8Length(a + b) == Utf8Length(a) + Utf8Length(b)
    ensures 1 <= bytes ==> (Utf8Length([c]) <= bytes <==> c as int < Power2(if bytes == 1 then 7 else 5 * bytes + 1))
  {
    assert Power2(7) == 128 && Power2(11) == 2048 && Power2(16) == 65536 && Power2(21) == 2097152;
    if bytes > 4 { Power2Grows(21, 5 * bytes + 1); }
    if a == "" {
      assert a + b == b;
    } else {
      assert (a + b)[1..] == a[1..] + b;
      Utf8LengthExact(a[1..], b, c, bytes);
    }
  }

  lemma {:induction false} Power2Grows(m: nat, n: nat)
    requires m <= n
    ensures Power2(m) <= Power2(n)
    decreases n
  {
    if m < n { Power2Grows(m, n - 1); }
  }

  /** Validating an answer again changes nothing. */
  lemma ValidatedIsFixed(path: string, allowRoot: bool, answer: Path)
    requires ValidateSitePath(path, allowRoot) == Ok(answer)
    ensures ValidateSitePath(answer, allowRoot) == Ok(answer)
  {
    ValidateSitePathExact(path, allowRoot, answer);
    AcceptedBetweenSlashes(answer, allowRoot, answer, 0, 0);
  }

  lemma StripCons(s: string, c: char)
    ensures Strip([c] + s, c) == Strip(s, c)
  {
  }

  lemma {:induction false} StripFrontPadding(path: string, i: nat)
    ensures Strip(Slashes(i) + path, '/') == Strip(path, '/')
  {
    if i == 0 {
      assert Slashes(i) + path == path;
    } else {
      Associative(['/'], Slashes(i - 1), path);
      StripCons(Slashes(i - 1) + path, '/');
      StripFrontPadding(path, i - 1);
    }
  }

  lemma StripBackPadding(path: string, j: nat)
    ensures Strip(path + Slashes(j), '/') == Strip(path, '/')
  {
    var longer := path + Slashes(j);
    var front, back := StripParts(path, '/');
    var low, high := front, |path| - back;
    assert longer[low..high] == path[low..high];
    var stripped := Strip(path, '/');
    assert low < high ==> stripped[0] == longer[low] && stripped[|stripped| - 1] == longer[high - 1];
    StripUnique(longer, '/', low, high);
  }

  lemma StripBetweenSlashes(path: string, i: nat, j: nat)
    ensures Strip(Slashes(i) + path + Slashes(j), '/') == Strip(path, '/')
  {
    StripBackPadding(Slashes(i) + path, j);
    StripFrontPadding(path, i);
  }

  lemma ForbiddenConcat(a: string, b: string)
    ensures AnyForbidden(a + b) <==> AnyForbidden(a) || AnyForbidden(b)
  {
    if AnyForbidden(a + b) {
      var k :| 0 <= k < |a + b| && Forbidden((a + b)[k]);
      if k < |a| { assert Forbidden(a[k]); } else { assert Forbidden(b[k - |a|]); }
    }
    if AnyForbidden(a) {
      var k :| 0 <= k < |a| && Forbidden(a[k]);
      assert Forbidden((a + b)[k]);
    }
    if AnyForbidden(b) {
      var k :| 0 <= k < |b| && Forbidden(b[k]);
      assert Forbidden((a + b)[|a| + k]);
    }
  }

  lemma ForbiddenBetweenSlashes(path: string, i: nat, j: nat)
    ensures AnyForbidden(Slashes(i) + path + Slashes(j)) <==> AnyForbidden(path)
  {
    ForbiddenConcat(Slashes(i) + path, Slashes(j));
    ForbiddenConcat(Slashes(i), path);
    assert !AnyForbidden(Slashes(i)) && !AnyForbidden(Slashes(j));
  }

  /** Extra slashes around a path never change the verdict, error or answer. */
  lemma ExtraSlashesIgnored(path: string, allowRoot: bool, i: nat, j: nat)
    ensures ValidateSitePath(Slashes(i) + path + Slashes(j), allowRoot) == ValidateSitePath(path, allowRoot)
  {
    StripBetweenSlashes(path, i, j);
    ForbiddenBetweenSlashes(path, i, j);
  }

  /** Canonical paths are closed under `Parent`, the root aside. */
  lemma CanonicalParent(path: Path)
    requires Canonical(path)
    ensures Parent(path) == "" || Canonical(Parent(path))
    ensures GoodSegment(Name(path)) && Child(Parent(path), Name(path)) == path
  {
    CanonicalEnds(path);
    ChildOfParent(path);
    if Parent(path) == "" {
      SplitWithoutSlash(path);
      assert Split(path)[0] == Name(path);
    } else {
      var parent, name := Parent(path), Name(path);
      assert path == parent + "/" + name;
      SplitConcat(parent, name);
      SplitWithoutSlash(name);
      assert forall k :: 0 <= k < |Split(parent)| ==> Split(parent)[k] == Split(path)[k];
      assert Split(path)[|Split(parent)|] == name;
    }
  }

  // ---- below ----

  /** `path.startswith(folder + "/")`, everything when the folder is the root. */
  predicate Below(folder: Path, path: Path) {
    folder == "" || folder + "/" <= path
  }

  /** A path is below a folder exactly when its parent is the folder or is below it. */
  lemma BelowStep(folder: Path, path: Path)
    requires folder != ""
    ensures Below(folder, path) <==> path != "" && (Parent(path) == folder || Below(folder, Parent(path)))
  {
    var prefix := folder + "/";
    var i := LastSlash(path);
    if prefix <= path {
      assert path[|folder|] == prefix[|folder|] == '/';
      assert i >= |folder|;
      if i > |folder| {
        assert prefix <= path[..i];
      } else {
        assert path[..i] == prefix[..|folder|] == folder;
      }
    }
    if path != "" && Parent(path) == folder {
      assert path[..i] + [path[i]] == path[..i + 1];
    }
  }

  /** A node and everything below it. */
  predicate Within(node: Path, path: Path) {
    path == node || Below(node, path)
  }

  /** The folders a path passes through, the root aside. */
  function Ancestors(path: Path): set<Path>
    decreases |path|
  {
    if Parent(path) == "" then {} else {Parent(path)} + Ancestors(Parent(path))
  }

  lemma {:induction false} AncestorsAreAbove(path: Path, folder: Path)
    ensures folder in Ancestors(path) <==> folder != "" && Below(folder, path)
    decreases |path|
  {
    if folder != "" {
      BelowStep(folder, path);
      if Parent(path) != "" {
        AncestorsAreAbove(Parent(path), folder);
      }
    } else if Parent(path) != "" {
      AncestorsAreAbove(Parent(path), folder);
    }
  }

  // ---- the SQL filters ----

  /** SQLite's `substr(s, start, length)` for a start of at least 1. */
  function Substr(s: string, start: nat, length: nat): string
    requires start >= 1
  {
    if start > |s| then ""
    else if start - 1 + length <= |s| then s[start - 1..start - 1 + length]
    else s[start - 1..]
  }

  /** SQLite's `substr(s, start)`. */
  function SubstrFrom(s: string, start: nat): string
    requires start >= 1
  {
    if start > |s| then "" else s[start - 1..]
  }

  /** SQLite's `instr(s, c)`: the first position, from 1, or 0. */
  function Instr(s: string, c: char): (n: nat)
    ensures n == 0 <==> c !in s
  {
    if s == "" then 0
    else if s[0] == c then 1
    else if Instr(s[1..], c) == 0 then 0
    else 1 + Instr(s[1..], c)
  }

  /** `_below`: `substr(path, 1, len(prefix)) = prefix`. */
  predicate SqlBelow(folder: Path, path: Path) {
    folder == "" || Substr(path, 1, |folder + "/"|) == folder + "/"
  }

  /** The filter of `files_in_folder`. */
  predicate SqlDirect(folder: Path, path: Path) {
    SqlBelow(folder, path) && Instr(SubstrFrom(path, if folder == "" then 1 else |folder| + 2), '/') == 0
  }

  lemma SqlBelowExact(folder: Path, path: Path)
    ensures SqlBelow(folder, path) <==> Below(folder, path)
  {
  }

  /** The substring filter selects exactly the paths whose parent is the folder. */
  lemma SqlDirectExact(folder: Path, path: Path)
    requires path != "" ==> path[0] != '/'
    ensures SqlDirect(folder, path) <==> Parent(path) == folder
  {
    var i := LastSlash(path);
    if folder == "" {
      assert SubstrFrom(path, 1) == path;
      assert i >= 0 ==> path[i] in path;
    } else {
      var prefix := folder + "/";
      var rest := SubstrFrom(path, |folder| + 2);
      if Below(folder, path) {
        assert path[|folder|] == prefix[|folder|] == '/';
        if i == |folder| {
          assert forall k :: 0 <= k < |rest| ==> rest[k] == path[|folder| + 1 + k];
        } else {
          assert rest[i - |folder| - 1] == '/';
        }
      }
      BelowStep(folder, path);
      if Parent(path) == folder {
        assert path[..i] == folder;
      }
    }
  }
}
