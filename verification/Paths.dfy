// Lexical paths: the one-pass and slicing shortcuts of the path helpers,
// measured against splitting a path into segments and joining it back.
module Paths {

  // ---------- strings and the separator ----------

  // What splitting a string at every separator yields; never empty.
  function Split(s: string): (parts: seq<string>)
    ensures |parts| >= 1
  {
    if s == "" then [""]
    else
      var rest := Split(s[1..]);
      if s[0] == '/' then [""] + rest else [[s[0]] + rest[0]] + rest[1..]
  }

  function Join(parts: seq<string>): string
  {
    if |parts| == 0 then ""
    else if |parts| == 1 then parts[0]
    else parts[0] + "/" + Join(parts[1..])
  }

  predicate SlashFree(s: string) { '/' !in s }

  // A segment a normalized path may be made of.
  predicate CleanName(s: string) { s != "" && s != "." && s != ".." && SlashFree(s) }

  predicate Clean(segs: seq<string>) { forall i :: 0 <= i < |segs| ==> CleanName(segs[i]) }

  lemma {:induction false} SplitSlashFree(s: string)
    requires SlashFree(s)
    ensures Split(s) == [s]
  {
    if s != "" {
      SplitSlashFree(s[1..]);
      assert s == [s[0]] + s[1..];
    }
  }

  lemma SplitStep(c: char, tail: string)
    ensures Split([c] + tail) ==
            if c == '/' then [""] + Split(tail) else [[c] + Split(tail)[0]] + Split(tail)[1..]
  {
    assert ([c] + tail)[1..] == tail;
  }

  lemma SplitNothing()
    ensures Split("") == [""]
  {
  }

  lemma {:induction false} SplitConcat(a: string, b: string)
    ensures Split(a + "/" + b) == Split(a) + Split(b)
  {
    hide Split;
    if a == "" {
      SplitNothing();
      SplitStep('/', b);
      assert a + "/" + b == ['/'] + b;
    } else {
      var tail := a[1..];
      SplitConcat(tail, b);
      SplitStep(a[0], tail);
      SplitStep(a[0], tail + "/" + b);
      FrontOfJoined(a, b);
      FrontOfSplit(a[0], Split(tail), Split(b));
    }
  }

  lemma FrontOfJoined(a: string, b: string)
    requires a != ""
    ensures a == [a[0]] + a[1..] && a + "/" + b == [a[0]] + (a[1..] + "/" + b)
  {
  }

  lemma FrontOfSplit(c: char, x: seq<string>, y: seq<string>)
    requires |x| >= 1
    ensures [[c] + (x + y)[0]] + (x + y)[1..] == [[c] + x[0]] + x[1..] + y
    ensures [""] + (x + y) == [""] + x + y
  {
    assert (x + y)[1..] == x[1..] + y;
  }

  lemma {:induction false} JoinSplit(s: string)
    ensures Join(Split(s)) == s
  {
    if s != "" {
      JoinSplit(s[1..]);
      var rest := Split(s[1..]);
      assert s == [s[0]] + s[1..];
      if s[0] == '/' {
        assert Split(s)[1..] == rest;
      } else {
        assert Split(s)[1..] == rest[1..];
      }
    }
  }

  lemma {:induction false} SplitJoin(parts: seq<string>)
    requires |parts| >= 1
    requires forall i :: 0 <= i < |parts| ==> SlashFree(parts[i])
    ensures Split(Join(parts)) == parts
  {
    SplitSlashFree(parts[0]);
    if |parts| > 1 {
      SplitJoin(parts[1..]);
      SplitConcat(parts[0], Join(parts[1..]));
    }
  }

  lemma {:induction false} JoinConcat(a: seq<string>, b: seq<string>)
    requires a != [] && b != []
    ensures Join(a + b) == Join(a) + "/" + Join(b)
  {
    if |a| == 1 {
      assert (a + b)[1..] == b;
    } else {
      assert (a + b)[1..] == a[1..] + b;
      JoinConcat(a[1..], b);
    }
  }

  lemma {:induction false} SplitPartsSlashFree(s: string)
    ensures forall i :: 0 <= i < |Split(s)| ==> SlashFree(Split(s)[i])
  {
    if s != "" {
      SplitPartsSlashFree(s[1..]);
    }
  }

  // ---------- the meaning of a path ----------

  // Resolve `.` and `..` lexically onto what has been walked so far; `..` at
  // the root stays at the root.
  function Fold(parts: seq<string>, walked: seq<string>): seq<string>
  {
    if parts == [] then walked
    else if parts[0] == "" || parts[0] == "." then Fold(parts[1..], walked)
    else if parts[0] == ".." then Fold(parts[1..], if walked == [] then [] else walked[..|walked| - 1])
    else Fold(parts[1..], walked + [parts[0]])
  }

  // The segments a path means.
  function Segments(path: string): seq<string> { Fold(Split(path), []) }

  function Rooted(segs: seq<string>): string { if segs == [] then "/" else "/" + Join(segs) }

  // Split and rejoin: the slow form every shortcut has to agree with.
  function Normalize(path: string): string { Rooted(Segments(path)) }

  predicate Normal(path: string) { Normalize(path) == path }

  predicate IsPathInside(path: string, parent: string)
  {
    path == parent || (if parent == "/" then "/" else parent + "/") <= path
  }

  lemma {:induction false} FoldClean(parts: seq<string>, walked: seq<string>)
    requires Clean(walked) && forall i :: 0 <= i < |parts| ==> SlashFree(parts[i])
    ensures Clean(Fold(parts, walked))
  {
    if parts != [] {
      if parts[0] == "" || parts[0] == "." {
        FoldClean(parts[1..], walked);
      } else if parts[0] == ".." {
        FoldClean(parts[1..], if walked == [] then [] else walked[..|walked| - 1]);
      } else {
        FoldClean(parts[1..], walked + [parts[0]]);
      }
    }
  }

  lemma {:induction false} FoldOfClean(parts: seq<string>, walked: seq<string>)
    requires Clean(parts)
    ensures Fold(parts, walked) == walked + parts
  {
    if parts != [] {
      assert CleanName(parts[0]);
      FoldOfClean(parts[1..], walked + [parts[0]]);
      assert walked + parts == walked + [parts[0]] + parts[1..];
    }
  }

  lemma {:induction false} FoldConcat(a: seq<string>, b: seq<string>, walked: seq<string>)
    ensures Fold(a + b, walked) == Fold(b, Fold(a, walked))
  {
    if a == [] {
      assert a + b == b;
    } else {
      assert (a + b)[1..] == a[1..] + b;
      var next := if a[0] == "" || a[0] == "." then walked
                  else if a[0] == ".." then (if walked == [] then [] else walked[..|walked| - 1])
                  else walked + [a[0]];
      FoldConcat(a[1..], b, next);
    }
  }

  lemma SegmentsClean(path: string)
    ensures Clean(Segments(path))
  {
    SplitPartsSlashFree(path);
    FoldClean(Split(path), []);
  }

  lemma SplitRooted(segs: seq<string>)
    requires Clean(segs) && segs != []
    ensures Split(Rooted(segs)) == [""] + segs
  {
    assert forall i :: 0 <= i < |segs| ==> CleanName(segs[i]) ==> SlashFree(segs[i]);
    SplitJoin(segs);
    SplitConcat("", Join(segs));
    assert "" + "/" + Join(segs) == Rooted(segs);
  }

  lemma SegmentsRooted(segs: seq<string>)
    ensures Clean(segs) ==> Segments(Rooted(segs)) == segs && Normal(Rooted(segs))
  {
    if Clean(segs) {
      if segs == [] {
        assert Split("/") == ["", ""];
        assert Fold(["", ""], []) == Fold([""], []) == [];
      } else {
        SplitRooted(segs);
        assert ([""] + segs)[1..] == segs;
        FoldOfClean(segs, []);
      }
    }
  }

  // What one more part does to a path: nothing if it is empty or a dot, a step up if it is
  // two dots, and at the root none; any other names something inside.
  lemma OneMorePart(path: string, part: string)
    requires SlashFree(part)
    ensures Segments(path + "/" + part) ==
            if part == "" || part == "." then Segments(path)
            else if part == ".." then Segments(path)[..if Segments(path) == [] then 0 else |Segments(path)| - 1]
            else Segments(path) + [part]
    ensures Segments("/" + part) == Segments(part)
  {
    SplitSlashFree(part);
    SplitConcat(path, part);
    FoldConcat(Split(path), [part], []);
    SplitConcat("", part);
    SplitNothing();
    FoldConcat([""], [part], []);
    assert "" + "/" + part == "/" + part;
  }

  // A normalized path is the root, or a slash and a segment for each of them.
  lemma NormalizedSnoc(segs: seq<string>, name: string)
    ensures Rooted([]) == "/"
    ensures Rooted(segs + [name]) == (if segs == [] then "" else Rooted(segs)) + "/" + name
  {
    if segs == [] {
      assert segs + [name] == [name];
    } else {
      JoinConcat(segs, [name]);
    }
  }

  // Normalizing twice changes nothing, and no path escapes the root.
  lemma NormalizeIdempotent(path: string)
    ensures Normal(Normalize(path)) && Segments(Normalize(path)) == Segments(path)
    ensures IsPathInside(Normalize(path), "/")
  {
    SegmentsClean(path);
    SegmentsRooted(Segments(path));
  }

  // The shape the one-pass check looks for is exactly being a fixed point of
  // split-and-rejoin.
  lemma NormalShape(path: string)
    ensures Normal(path) <==>
            |path| > 0 && path[0] == '/' && (|path| == 1 || Clean(Split(path[1..])))
  {
    if Normal(path) {
      var segs := Segments(path);
      SegmentsClean(path);
      if segs != [] {
        SplitRooted(segs);
        assert path[1..] == Join(segs);
        assert forall i :: 0 <= i < |segs| ==> CleanName(segs[i]) ==> SlashFree(segs[i]);
        SplitJoin(segs);
      }
    }
    if |path| > 0 && path[0] == '/' && (|path| == 1 || Clean(Split(path[1..]))) {
      if |path| == 1 {
        assert path == "/" == Rooted([]);
        SegmentsRooted([]);
      } else {
        var segs := Split(path[1..]);
        JoinSplit(path[1..]);
        assert path == "/" + path[1..] == Rooted(segs);
        SegmentsRooted(segs);
      }
    }
  }

  lemma ConcatCancel<T>(x: seq<T>, a: seq<T>, b: seq<T>)
    requires x + a == x + b
    ensures a == b
  {
    assert a == (x + a)[|x|..];
  }

  lemma SplitOfRoot()
    ensures Split(Rooted([])) == ["", ""]
  {
    assert Split("/") == ["", ""];
  }

  // A path with `b` and a separator in front has the segments of `b` in front.
  lemma InsideRest(a: seq<string>, b: seq<string>, rest: string)
    requires Clean(a) && Clean(b) && b != []
    requires Rooted(a) == Rooted(b) + "/" + rest
    ensures a == b + Split(rest)
  {
    hide Split, Clean, Rooted;
    SplitConcat(Rooted(b), rest);
    SplitRooted(b);
    SplitOfRoot();
    SplitRooted(a);
    assert [""] + a == [""] + (b + Split(rest));
    ConcatCancel([""], a, b + Split(rest));
  }

  lemma RootedLength(segs: seq<string>)
    requires Clean(segs)
    ensures |Rooted(segs)| == 1 <==> segs == []
    ensures Rooted(segs) == "/" <==> segs == []
  {
    if segs != [] {
      assert CleanName(segs[0]);
      assert |Join(segs)| >= |segs[0]| > 0;
    }
  }

  lemma PrefixIsInside(a: seq<string>, b: seq<string>)
    requires b != [] && b < a
    ensures Rooted(b) + "/" <= Rooted(a)
  {
    var c := a[|b|..];
    assert a == b + c;
    RootedConcat(b, c);
    assert ("/" + Join(c))[0] == '/';
  }

  // `isPathInside` on normalized paths is exactly "is a segment prefix".
  lemma InsideIsPrefix(a: seq<string>, b: seq<string>)
    requires Clean(a) && Clean(b)
    ensures IsPathInside(Rooted(a), Rooted(b)) <==> b <= a
  {
    RootedLength(b);
    if b == [] {
      assert "/" <= Rooted(a);
    } else if a == b {
    } else if b <= a {
      PrefixIsInside(a, b);
    } else if Rooted(a) == Rooted(b) {
      SegmentsRooted(a);
      SegmentsRooted(b);
    } else if Rooted(b) + "/" <= Rooted(a) {
      InsideRest(a, b, Rooted(a)[|Rooted(b)| + 1..]);
    }
  }

  lemma IsPathInsideIsSegmentPrefix(path: string, parent: string)
    requires Normal(path) && Normal(parent)
    ensures IsPathInside(path, parent) <==> Segments(parent) <= Segments(path)
  {
    SegmentsClean(path);
    SegmentsClean(parent);
    InsideIsPrefix(Segments(path), Segments(parent));
  }

  // `to + path.slice(from.length)` is the path with its leading segments swapped.
  lemma RebasePath(from: seq<string>, to: seq<string>, below: seq<string>)
    requires Clean(from) && Clean(to) && Clean(below) && from != [] && to != []
    ensures |Rooted(from)| <= |Rooted(from + below)|
    ensures Rooted(to) + Rooted(from + below)[|Rooted(from)|..] == Rooted(to + below)
  {
    if below == [] {
      assert from + below == from && to + below == to;
    } else {
      RootedConcat(from, below);
      RootedConcat(to, below);
      DropPrefix(Rooted(from), "/" + Join(below));
    }
  }

  lemma RootedConcat(a: seq<string>, b: seq<string>)
    requires a != [] && b != []
    ensures Rooted(a + b) == Rooted(a) + ("/" + Join(b))
  {
    hide Join;
    JoinConcat(a, b);
    SlashTwice(Join(a), Join(b));
  }

  lemma SlashTwice(a: string, b: string)
    ensures "/" + (a + "/" + b) == ("/" + a) + ("/" + b)
  {
  }

  lemma DropPrefix(a: string, b: string)
    ensures (a + b)[|a|..] == b
  {
  }

  function JoinPath(parts: seq<string>): string { Normalize(Join(parts)) }

  lemma JoinPathChild(dir: string, name: string)
    requires CleanName(name)
    ensures JoinPath([dir, name]) == Rooted(Segments(dir) + [name])
    ensures Segments(JoinPath([dir, name])) == Segments(dir) + [name]
  {
    assert [dir, name][1..] == [name];
    assert Join([dir, name]) == dir + "/" + name;
    SplitConcat(dir, name);
    SplitSlashFree(name);
    FoldConcat(Split(dir), [name], []);
    assert Clean([name]);
    FoldOfClean([name], Segments(dir));
    SegmentsClean(dir);
    SegmentsRooted(Segments(dir) + [name]);
  }

  // ---------- the operations ----------

  // One pass over the characters, no allocation.
  method IsNormalizedPath(path: string) returns (normal: bool)
    ensures normal <==> Normal(path)
  {
    hide Split, Clean, Normal, SlashFree, CleanName;
    NormalShape(path);
    NothingIsSlashFree(path);
    if |path| == 0 || path[0] != '/' {
      return false;
    }
    if |path| == 1 {
      return true;
    }
    var start := 1;
    var index := 1;
    while index <= |path|
      invariant 1 <= start <= index <= |path| + 1
      invariant index <= |path| ==> SlashFree(path[start..index])
      invariant index <= |path| ==> (Clean(Split(path[1..])) <==> Clean(Split(path[start..])))
      invariant index == |path| + 1 ==> Clean(Split(path[1..]))
    {
      if index != |path| && path[index] != '/' {
        OneCharMore(path, start, index);
        index := index + 1;
        continue;
      }
      SplitSegment(path, start, index);
      var size := index - start;
      if size == 0 {
        return false;
      }
      if path[start] == '.' && (size == 1 || (size == 2 && path[start + 1] == '.')) {
        return false;
      }
      start := index + 1;
      index := index + 1;
    }
    return true;
  }

  lemma NothingIsSlashFree(path: string)
    ensures forall i :: 0 <= i <= |path| ==> SlashFree(path[i..i])
  {
  }

  lemma OneCharMore(path: string, start: nat, index: nat)
    requires start <= index < |path| && SlashFree(path[start..index]) && path[index] != '/'
    ensures SlashFree(path[start..index + 1])
  {
    assert path[start..index + 1] == path[start..index] + [path[index]];
  }

  // One segment of the scan: cleanness of the rest is cleanness of the
  // segment, read off its first two characters, and of what follows it.
  lemma SplitSegment(path: string, start: nat, index: nat)
    requires start <= index <= |path| && SlashFree(path[start..index])
    requires index == |path| || path[index] == '/'
    ensures var size := index - start;
            CleanName(path[start..index]) <==>
            size != 0 && !(path[start] == '.' && (size == 1 || (size == 2 && path[start + 1] == '.')))
    ensures Clean(Split(path[start..])) <==>
            CleanName(path[start..index]) && (index < |path| ==> Clean(Split(path[index + 1..])))
  {
    var segment := path[start..index];
    SplitSlashFree(segment);
    if index == |path| {
      assert path[start..] == segment;
      assert Split(path[start..]) == [segment] + [];
      CleanCons(segment, []);
    } else {
      assert path[start..] == segment + "/" + path[index + 1..];
      SplitConcat(segment, path[index + 1..]);
      CleanCons(segment, Split(path[index + 1..]));
    }
    DotNames(segment);
  }

  lemma DotNames(name: string)
    ensures name == "." <==> |name| == 1 && name[0] == '.'
    ensures name == ".." <==> |name| == 2 && name[0] == '.' && name[1] == '.'
  {
  }

  lemma CleanCons(first: string, rest: seq<string>)
    ensures Clean([first] + rest) <==> CleanName(first) && Clean(rest)
  {
    if Clean([first] + rest) {
      assert CleanName(([first] + rest)[0]);
      forall i | 0 <= i < |rest| ensures CleanName(rest[i]) { assert ([first] + rest)[i + 1] == rest[i]; }
    }
  }

  method SplitPath(path: string) returns (segments: seq<string>)
    ensures segments == Segments(path) && Clean(segments)
  {
    segments := [];
    var parts := Split(path);
    var i := 0;
    while i < |parts|
      invariant 0 <= i <= |parts|
      invariant Fold(parts[i..], segments) == Segments(path)
    {
      var segment := parts[i];
      assert parts[i..][1..] == parts[i + 1..];
      if segment == "" || segment == "." {
      } else if segment == ".." {
        if segments != [] {
          segments := segments[..|segments| - 1];
        }
      } else {
        segments := segments + [segment];
      }
      i := i + 1;
    }
    SegmentsClean(path);
  }

  method NormalizePath(path: string) returns (normalized: string)
    ensures normalized == Normalize(path) && Normal(normalized)
  {
    NormalizeIdempotent(path);
    var already := IsNormalizedPath(path);
    if already {
      return path;
    }
    var segments := SplitPath(path);
    normalized := if |segments| == 0 then "/" else "/" + Join(segments);
  }

  method ResolvePath(path: string) returns (normalized: string, segments: seq<string>)
    ensures normalized == Normalize(path) && segments == Segments(path)
  {
    var already := IsNormalizedPath(path);
    if already {
      if path == "/" {
        SegmentsRooted([]);
        return path, [];
      }
      NormalShape(path);
      JoinSplit(path[1..]);
      assert path == Rooted(Split(path[1..]));
      SegmentsRooted(Split(path[1..]));
      return path, Split(path[1..]);
    }
    segments := SplitPath(path);
    normalized := if |segments| == 0 then "/" else "/" + Join(segments);
  }

  function LastIndexOf(s: string, c: char): (at: int)
    ensures -1 <= at < |s|
    ensures at >= 0 ==> s[at] == c
    ensures forall k :: at < k < |s| ==> s[k] != c
  {
    if s == "" then -1
    else if s[|s| - 1] == c then |s| - 1
    else LastIndexOf(s[..|s| - 1], c)
  }

  lemma LastIndexOfConcat(head: string, last: string)
    requires SlashFree(last)
    ensures LastIndexOf(head + "/" + last, '/') == |head|
  {
    hide LastIndexOf;
    var path := head + "/" + last;
    SlashAfter(head, last);
    assert path[|head|] == '/';
  }

  lemma SlashAfter(head: string, last: string)
    requires SlashFree(last)
    ensures (head + "/" + last)[|head|] == '/'
    ensures forall k :: |head| < k < |head + "/" + last| ==> (head + "/" + last)[k] != '/'
    ensures (head + "/" + last)[|head| + 1..] == last && (head + "/" + last)[..|head|] == head
  {
    var path := head + "/" + last;
    forall k | |head| < k < |path| ensures path[k] != '/' { assert path[k] == last[k - |head| - 1]; }
  }

  // Cutting at the last separator leaves the parent and the last segment.
  lemma LastSlashOfRooted(segs: seq<string>)
    requires Clean(segs) && segs != []
    ensures var path, cut := Rooted(segs), LastIndexOf(Rooted(segs), '/');
            && cut >= 0
            && path[cut + 1..] == segs[|segs| - 1]
            && (if cut <= 0 then "/" else path[..cut]) == Rooted(segs[..|segs| - 1])
  {
    var init, last := segs[..|segs| - 1], segs[|segs| - 1];
    assert segs == init + [last] && CleanName(last);
    var head := if init == [] then "" else Rooted(init);
    assert Rooted(segs) == head + "/" + last by {
      if init != [] {
        JoinConcat(init, [last]);
      }
    }
    hide LastIndexOf, Join;
    LastIndexOfConcat(head, last);
    SlashAfter(head, last);
  }

  // The slicing shortcut of `dirname` agrees with dropping the last segment.
  lemma DirnameSlice(segs: seq<string>)
    requires Clean(segs)
    ensures var cut := LastIndexOf(Rooted(segs), '/');
            (if cut <= 0 then "/" else Rooted(segs)[..cut]) == Rooted(Parent(segs))
  {
    if segs != [] {
      LastSlashOfRooted(segs);
    }
  }

  // The slicing shortcut of `basename` agrees with taking the last segment.
  lemma BasenameSlice(segs: seq<string>)
    requires Clean(segs)
    ensures var path := Rooted(segs);
            (if |path| == 1 then "/" else path[LastIndexOf(path, '/') + 1..]) == NameOf(segs)
  {
    RootedLength(segs);
    if segs != [] {
      LastSlashOfRooted(segs);
    }
  }

  function Parent(segs: seq<string>): seq<string> { if segs == [] then [] else segs[..|segs| - 1] }

  function NameOf(segs: seq<string>): string { if segs == [] then "/" else segs[|segs| - 1] }

  method Dirname(path: string) returns (parent: string)
    ensures parent == Rooted(Parent(Segments(path)))
  {
    hide Segments, LastIndexOf, Split, Join, Clean;
    var already := IsNormalizedPath(path);
    if already {
      SegmentsClean(path);
      DirnameSlice(Segments(path));
      var cut := LastIndexOf(path, '/');
      return if cut <= 0 then "/" else path[..cut];
    }
    var segments := SplitPath(path);
    if segments != [] {
      segments := segments[..|segments| - 1];
    }
    return if |segments| == 0 then "/" else "/" + Join(segments);
  }

  method Basename(path: string) returns (name: string)
    ensures name == NameOf(Segments(path))
  {
    hide Segments, LastIndexOf, Split, Join, Clean;
    var already := IsNormalizedPath(path);
    if already {
      SegmentsClean(path);
      BasenameSlice(Segments(path));
      return if |path| == 1 then "/" else path[LastIndexOf(path, '/') + 1..];
    }
    var segments := SplitPath(path);
    return if segments == [] then "/" else segments[|segments| - 1];
  }
}
