/** Slash-separated paths: path.Clean, path.Dir and the manifest's path rules. */
module Paths {
  import opened Wrappers

  // ---------------------------------------------------------------- segments of a path

  /** strings.Split(p, "/"). */
  function Split(p: string): (segs: seq<string>)
    ensures |segs| >= 1
  {
    if p == "" then [""]
    else
      var rest := Split(p[1..]);
      if p[0] == '/' then [""] + rest else [[p[0]] + rest[0]] + rest[1..]
  }

  function JoinSegments(segs: seq<string>): string
    requires |segs| >= 1
  {
    if |segs| == 1 then segs[0] else segs[0] + "/" + JoinSegments(segs[1..])
  }

  lemma {:induction false} JoinSplit(p: string)
    ensures JoinSegments(Split(p)) == p
  {
    if p != "" {
      JoinSplit(p[1..]);
      var rest := Split(p[1..]);
      if p[0] != '/' && |rest| > 1 {
        assert Split(p)[1..] == rest[1..];
      }
    }
  }

  lemma {:induction false} SplitConcat(a: string, b: string)
    ensures Split(a + "/" + b) == Split(a) + Split(b)
  {
    var p := a + "/" + b;
    if a == "" {
      assert p[1..] == b;
    } else {
      assert p[1..] == a[1..] + "/" + b;
      SplitConcat(a[1..], b);
    }
  }

  lemma {:induction false} SplitPlain(name: string)
    requires '/' !in name
    ensures Split(name) == [name]
  {
    if name != "" {
      SplitPlain(name[1..]);
      assert [name[0]] + name[1..] == name;
    }
  }

  // ---------------------------------------------------------------------- path.Clean

  /** One step of path.Clean on a relative path: what is left after one more segment. */
  function Push(out: seq<string>, seg: string): seq<string> {
    if seg == "" || seg == "." then out
    else if seg == ".." && |out| > 0 && out[|out| - 1] != ".." then out[..|out| - 1]
    else out + [seg]
  }

  function CleanSegments(segs: seq<string>): seq<string> {
    if |segs| == 0 then [] else Push(CleanSegments(segs[..|segs| - 1]), segs[|segs| - 1])
  }

  /** path.Clean of a relative path. */
  function Clean(p: string): string {
    var out := CleanSegments(Split(p));
    if |out| == 0 then "." else JoinSegments(out)
  }

  function LastSlash(p: string): (i: int)
    ensures -1 <= i < |p|
    ensures i >= 0 ==> p[i] == '/'
    ensures forall k :: i < k < |p| ==> p[k] != '/'
  {
    if p == "" then -1 else if p[|p| - 1] == '/' then |p| - 1 else LastSlash(p[..|p| - 1])
  }

  /** path.Dir of a relative path. */
  function Dir(p: string): string { Clean(p[..LastSlash(p) + 1]) }

  // --------------------------------------------------------------------- ValidatePath

  /** unicode.IsSpace. */
  predicate IsSpace(c: char) {
    || '\t' <= c <= '\r' || c == ' ' || c == '\U{85}' || c == '\U{A0}' || c == '\U{1680}'
    || '\U{2000}' <= c <= '\U{200A}' || c == '\U{2028}' || c == '\U{2029}' || c == '\U{202F}'
    || c == '\U{205F}' || c == '\U{3000}'
  }

  predicate Blank(p: string) { forall i :: 0 <= i < |p| ==> IsSpace(p[i]) }

  predicate HasDots(segs: seq<string>) { exists i :: 0 <= i < |segs| && (segs[i] == "." || segs[i] == "..") }

  datatype PathError = Empty | BadCharacter | Absolute | NotClean | Traversal

  function ValidatePath(p: string): Option<PathError> {
    if Blank(p) then Some(Empty)
    else if '\\' in p || ':' in p || '\0' in p then Some(BadCharacter)
    else if p[..1] == "/" then Some(Absolute)
    else if Clean(p) != p then Some(NotClean)
    else if HasDots(Split(p)) then Some(Traversal)
    else None
  }

  /** A name a directory can hold: one segment of an accepted path. */
  predicate PlainSegment(seg: string) { seg != "" && seg != "." && seg != ".." }

  predicate PlainPath(p: string) { forall i :: 0 <= i < |Split(p)| ==> PlainSegment(Split(p)[i]) }

  lemma {:induction false} CleanKeepsPlain(segs: seq<string>)
    requires forall i :: 0 <= i < |segs| ==> PlainSegment(segs[i])
    ensures CleanSegments(segs) == segs
  {
    if |segs| > 0 {
      CleanKeepsPlain(segs[..|segs| - 1]);
    }
  }

  lemma {:induction false} CleanDropsNoDots(segs: seq<string>)
    requires !HasDots(segs)
    ensures |CleanSegments(segs)| <= |segs|
    ensures forall i :: 0 <= i < |CleanSegments(segs)| ==> PlainSegment(CleanSegments(segs)[i])
    ensures |CleanSegments(segs)| == |segs| ==> CleanSegments(segs) == segs
  {
    if |segs| > 0 {
      var init := segs[..|segs| - 1];
      assert !HasDots(init) by {
        assert forall i :: 0 <= i < |init| ==> init[i] == segs[i];
      }
      CleanDropsNoDots(init);
    }
  }

  lemma {:induction false} SplitJoin(segs: seq<string>)
    requires |segs| >= 1 && forall i :: 0 <= i < |segs| ==> '/' !in segs[i]
    ensures Split(JoinSegments(segs)) == segs
  {
    SplitPlain(segs[0]);
    if |segs| > 1 {
      SplitConcat(segs[0], JoinSegments(segs[1..]));
      SplitJoin(segs[1..]);
    }
  }

  lemma {:induction false} SegmentsHaveNoSlash(p: string)
    ensures forall i :: 0 <= i < |Split(p)| ==> '/' !in Split(p)[i]
  {
    if p != "" {
      SegmentsHaveNoSlash(p[1..]);
    }
  }

  lemma {:induction false} CleanFrom(segs: seq<string>)
    ensures forall x :: x in CleanSegments(segs) ==> x in segs
  {
    if |segs| > 0 {
      CleanFrom(segs[..|segs| - 1]);
      assert forall x :: x in segs[..|segs| - 1] ==> x in segs;
    }
  }

  lemma CleanedIsPlain(p: string)
    requires !HasDots(Split(p))
    requires Clean(p) == p
    ensures PlainPath(p)
  {
    var segs, out := Split(p), CleanSegments(Split(p));
    CleanDropsNoDots(segs);
    if |out| == 0 {
      SplitPlain(".");
    } else {
      SegmentsHaveNoSlash(p);
      CleanFrom(segs);
      assert forall i :: 0 <= i < |out| ==> out[i] in segs;
      SplitJoin(out);
    }
  }

  /** path.Clean leaves a path without dot segments alone exactly when no segment is empty. */
  lemma CleanIffPlain(p: string)
    requires !HasDots(Split(p))
    ensures Clean(p) == p <==> PlainPath(p)
  {
    if PlainPath(p) {
      JoinSplit(p);
      CleanKeepsPlain(Split(p));
    } else if Clean(p) == p {
      CleanedIsPlain(p);
    }
  }

  lemma {:induction false} CleanContinues(a: seq<string>, b: seq<string>, c: seq<string>)
    requires CleanSegments(a) == CleanSegments(b)
    ensures CleanSegments(a + c) == CleanSegments(b + c)
    decreases |c|
  {
    if c == [] {
      assert a + c == a && b + c == b;
    } else {
      var n := |c| - 1;
      CleanContinues(a, b, c[..n]);
      assert (a + c)[..|a| + n] == a + c[..n] && (b + c)[..|b| + n] == b + c[..n];
    }
  }

  lemma CleanMore(segs: seq<string>, seg: string)
    ensures CleanSegments(segs + [seg]) == Push(CleanSegments(segs), seg)
  {
    assert (segs + [seg])[..|segs|] == segs;
  }

  /** path.Clean leaves out empty segments, single dots, and segments that double dots
      take back, wherever they are; a path of double dots and then plain segments has
      nothing else to leave out. */
  lemma CleanLaws(a: seq<string>, seg: string, c: seq<string>, ups: nat, plain: seq<string>)
    requires PlainSegment(seg) && forall i :: 0 <= i < |plain| ==> PlainSegment(plain[i])
    ensures CleanSegments(a + [""] + c) == CleanSegments(a + ["."] + c) == CleanSegments(a + [seg, ".."] + c) == CleanSegments(a + c)
    ensures CleanSegments(seq(ups, _ => "..") + plain) == seq(ups, _ => "..") + plain
  {
    CleanMore(a, "");
    CleanMore(a, ".");
    CleanMore(a, seg);
    CleanMore(a + [seg], "..");
    assert a + [seg] + [".."] == a + [seg, ".."];
    CleanContinues(a + [""], a, c);
    CleanContinues(a + ["."], a, c);
    CleanContinues(a + [seg, ".."], a, c);
    CleanKeepsUps(ups, plain);
  }

  lemma {:induction false} CleanKeepsUps(ups: nat, plain: seq<string>)
    requires forall i :: 0 <= i < |plain| ==> PlainSegment(plain[i])
    ensures CleanSegments(seq(ups, _ => "..") + plain) == seq(ups, _ => "..") + plain
    decreases |plain|, ups
  {
    var path := seq(ups, _ => "..") + plain;
    if |plain| > 0 {
      CleanKeepsUps(ups, plain[..|plain| - 1]);
      assert path[..|path| - 1] == seq(ups, _ => "..") + plain[..|plain| - 1];
    } else if ups > 0 {
      CleanKeepsUps(ups - 1, []);
      assert path[..|path| - 1] == seq(ups - 1, _ => "..") + [];
    }
  }

  /** The 25 characters with the Unicode property White_Space. */
  lemma SpacesAre(c: char)
    ensures IsSpace(c) <==>
            c as int in {9, 10, 11, 12, 13, 32, 0x85, 0xA0, 0x1680, 0x2000, 0x2001, 0x2002, 0x2003, 0x2004, 0x2005, 0x2006,
                         0x2007, 0x2008, 0x2009, 0x200A, 0x2028, 0x2029, 0x202F, 0x205F, 0x3000}
  {
  }

  /** ValidatePath accepts exactly the relative paths of plain segments that are
      not blank and have no backslash, drive marker or NUL. */
  lemma AcceptedPaths(p: string)
    ensures ValidatePath(p).None? <==>
            PlainPath(p) && !Blank(p) && '\\' !in p && ':' !in p && '\0' !in p
  {
    if !Blank(p) && p[..1] == "/" {
      assert Split(p)[0] == "";
    }
    if HasDots(Split(p)) {
      assert !PlainPath(p);
    } else {
      CleanIffPlain(p);
    }
    hide Clean, PlainPath, Blank, HasDots, Split;
  }

  // -------------------------------------------------------------------- parent and child

  /** The path of an entry of a directory; the source directory itself is "". */
  function Child(dir: string, name: string): string {
    if dir == "" then name else dir + "/" + name
  }

  predicate IsName(name: string) { PlainSegment(name) && '/' !in name }

  lemma LastSlashOfChild(dir: string, name: string)
    requires '/' !in name
    ensures LastSlash(Child(dir, name)) == if dir == "" then -1 else |dir|
  {
    var p, i := Child(dir, name), LastSlash(Child(dir, name));
    hide LastSlash;
    if dir != "" {
      assert p[|dir|] == '/';
      assert p[|dir| + 1..] == name;
      assert forall k :: |dir| < k < |p| ==> p[k] == name[k - |dir| - 1];
    }
  }

  /** path.Dir leads from an entry back to its directory. */
  lemma DirOfChild(dir: string, name: string)
    requires IsName(name) && (dir == "" || PlainPath(dir))
    ensures Dir(Child(dir, name)) == if dir == "" then "." else dir
  {
    LastSlashOfChild(dir, name);
    hide LastSlash;
    if dir == "" {
      assert Split("") == [""];
      assert CleanSegments([""]) == [];
    } else {
      assert Child(dir, name)[..|dir| + 1] == dir + "/" + "";
      SplitConcat(dir, "");
      CleanKeepsPlain(Split(dir));
      assert (Split(dir) + [""])[..|Split(dir)|] == Split(dir);
      JoinSplit(dir);
    }
  }
}
