/** Which names the vault accepts: manifest paths stay inside the folder they are joined to, chunk names
    are plain hexadecimal, and content keys compare as chunk lists do. */
module Names {
  import opened Basics
  import opened Chunker
  import opened Manifests
  import opened Stores

  // Paths

  /** The components of a path as the standard library enumerates them. */
  datatype Component = RootDir | CurDir | ParentDir | Normal(name: string)

  /** A part between slashes: empty parts vanish, and so does a dot that is not the first. */
  function ComponentsOf(part: string, first: bool): seq<Component> {
    if part == "" then [] else if part == ".." then [ParentDir]
    else if part != "." then [Normal(part)] else if first then [CurDir] else []
  }

  function ComponentsFrom(parts: seq<string>): seq<Component> {
    if parts == [] then [] else ComponentsFrom(parts[..|parts| - 1]) + ComponentsOf(parts[|parts| - 1], |parts| == 1)
  }

  function Components(path: string): seq<Component> {
    (if path != "" && path[0] == '/' then [RootDir] else []) + ComponentsFrom(Split(path))
  }

  /** The parts hold no slash and give the path back when a slash is put between them. */
  lemma {:induction false} SplitRejoins(path: string)
    ensures forall i :: 0 <= i < |Split(path)| ==> '/' !in Split(path)[i]
    ensures Slashed(Split(path)) == path
  {
    if path != "" {
      SplitRejoins(path[1..]);
      var parts := Split(path[1..]);
      PrependSlashed(path[0], parts);
      assert path == [path[0]] + path[1..];
    }
  }

  function Slashed(parts: seq<string>): string
    requires parts != []
  {
    if |parts| == 1 then parts[0] else parts[0] + "/" + Slashed(parts[1..])
  }

  lemma PrependSlashed(c: char, parts: seq<string>)
    requires parts != []
    ensures Slashed(Prepend(c, parts)) == [c] + Slashed(parts)
  {
    var r := Prepend(c, parts);
    if c == '/' {
      assert r[1..] == parts;
      assert "" + "/" + Slashed(parts) == "/" + Slashed(parts);
    } else {
      assert r[1..] == parts[1..];
      if |parts| > 1 {
        assert ([c] + parts[0]) + "/" + Slashed(parts[1..]) == [c] + (parts[0] + "/" + Slashed(parts[1..]));
      }
    }
  }

  ghost predicate AllNormal(cs: seq<Component>) {
    forall i :: 0 <= i < |cs| ==> cs[i].Normal?
  }

  lemma {:induction false} PartsNormalIff(parts: seq<string>)
    ensures AllNormal(ComponentsFrom(parts)) <==> ".." !in parts && (parts != [] ==> parts[0] != ".")
  {
    if parts != [] {
      var k := |parts| - 1;
      PartsNormalIff(parts[..k]);
      var before, last := ComponentsFrom(parts[..k]), ComponentsOf(parts[k], k == 0);
      assert AllNormal(before + last) <==> AllNormal(before) && AllNormal(last) by {
        NormalConcat(before, last);
      }
      assert parts == parts[..k] + [parts[k]];
      assert AllNormal(last) <==> parts[k] != ".." && !(k == 0 && parts[k] == ".") by {
        if parts[k] == ".." || (k == 0 && parts[k] == ".") {
          assert !last[0].Normal?;
        }
      }
    }
  }

  lemma NormalConcat(a: seq<Component>, b: seq<Component>)
    ensures AllNormal(a + b) <==> AllNormal(a) && AllNormal(b)
  {
    if AllNormal(a + b) {
      forall i | 0 <= i < |a|
        ensures a[i].Normal?
      {
        assert (a + b)[i] == a[i];
      }
      forall i | 0 <= i < |b|
        ensures b[i].Normal?
      {
        assert (a + b)[|a| + i] == b[i];
      }
    }
  }

  /** A path is accepted exactly when it is not empty and all its components are ordinary names. */
  lemma SafePathIff(path: string)
    ensures SafePath(path) <==> path != "" && AllNormal(Components(path))
  {
    PartsNormalIff(Split(path));
    if path != "" && path[0] == '/' {
      assert Components(path)[0] == RootDir;
    } else {
      assert Components(path) == ComponentsFrom(Split(path));
    }
  }

  /** The folder a path leads to from `root`, component by component, as the file system walks it. */
  function Walk(root: seq<string>, cs: seq<Component>): seq<string> {
    if cs == [] then root else
      var here := Walk(root, cs[..|cs| - 1]);
      match cs[|cs| - 1]
      case RootDir => []
      case CurDir => here
      case ParentDir => if here == [] then [] else here[..|here| - 1]
      case Normal(name) => here + [name]
  }

  /** An accepted path never leaves the folder it is joined to, at any component on the way. */
  lemma {:induction false} SafePathStaysInside(root: seq<string>, path: string, k: nat)
    requires SafePath(path) && k <= |Components(path)|
    ensures root <= Walk(root, Components(path)[..k])
    ensures |Walk(root, Components(path)[..k])| == |root| + k
  {
    SafePathIff(path);
    if k > 0 {
      SafePathStaysInside(root, path, k - 1);
      assert Components(path)[..k][..k - 1] == Components(path)[..k - 1];
    }
  }

  // Chunk names

  /** A name the chunk store files has no slash and no dot in it, and neither case of digit is refused. */
  lemma ChunkNamePlain(chunks: ChunkMap, hash: string, bytes: Bytes)
    requires hash !in chunks && hash in WithChunk(chunks, hash, bytes)
    ensures |hash| == 64 && '/' !in hash && '.' !in hash
  {
  }

  const HEX_DIGITS := "0123456789abcdefABCDEF"

  /** Exactly the names of 64 hexadecimal digits are filed. */
  lemma ChunkFiledIff(chunks: ChunkMap, hash: string, bytes: Bytes)
    ensures hash in WithChunk(chunks, hash, bytes) <==>
      hash in chunks || (|hash| == 64 && forall i :: 0 <= i < |hash| ==> hash[i] in HEX_DIGITS)
  {
    forall i | 0 <= i < |hash|
      ensures hash[i] in HEX_DIGITS <==>
        '0' <= hash[i] <= '9' || 'a' <= hash[i] <= 'f' || 'A' <= hash[i] <= 'F'
    {
      HexDigit(hash[i]);
    }
  }

  lemma HexDigit(c: char)
    ensures c in HEX_DIGITS <==> '0' <= c <= '9' || 'a' <= c <= 'f' || 'A' <= c <= 'F'
  {
    if '0' <= c <= '9' {
      assert HEX_DIGITS[c as int - '0' as int] == c;
    } else if 'a' <= c <= 'f' {
      assert HEX_DIGITS[10 + (c as int - 'a' as int)] == c;
    } else if 'A' <= c <= 'F' {
      assert HEX_DIGITS[16 + (c as int - 'A' as int)] == c;
    }
  }

  // Content keys

  /** What follows the first part of a joined list. */
  function Tail(parts: seq<string>): string
    requires parts != []
  {
    if |parts| == 1 then "" else "," + Join(parts[1..])
  }

  lemma {:induction false} LexLeqConcat(x: string, y: string, s: string, t: string)
    requires |x| == |y|
    ensures LexLeq(x + s, y + t) <==> if x == y then LexLeq(s, t) else LexLeq(x, y)
  {
    if x == [] {
      assert x + s == s && y + t == t;
    } else {
      LexLeqConcat(x[1..], y[1..], s, t);
      assert (x + s)[1..] == x[1..] + s && (y + t)[1..] == y[1..] + t;
      assert x == [x[0]] + x[1..] && y == [y[0]] + y[1..];
    }
  }

  ghost predicate HashesOfLength(parts: seq<string>, n: nat) {
    forall i :: 0 <= i < |parts| ==> |parts[i]| == n
  }

  lemma {:induction false} LexLeqJoin(a: seq<string>, b: seq<string>, n: nat, k: nat)
    requires n > 0 && HashesOfLength(a, n) && HashesOfLength(b, n)
    requires k <= |a| && k <= |b| && a[..k] == b[..k]
    ensures k == |a| ==> LexLeq(Join(a), Join(b))
    ensures k == |b| < |a| ==> !LexLeq(Join(a), Join(b))
    ensures k < |a| && k < |b| && a[k] != b[k] ==> (LexLeq(Join(a), Join(b)) <==> LexLeq(a[k], b[k]))
  {
    hide LexLeq, Join, Tail;
    JoinsOrdered(a, b, n);
    if a != [] && b != [] {
      LexLeqConcat(a[0], b[0], Tail(a), Tail(b));
      if k > 0 {
        assert a[0] == a[..k][0] == b[..k][0] == b[0];
        assert a[1..][..k - 1] == a[..k][1..] == b[..k][1..] == b[1..][..k - 1];
        LexLeqJoin(a[1..], b[1..], n, k - 1);
        TailsOrdered(a, b);
      }
    }
  }

  lemma JoinsOrdered(a: seq<string>, b: seq<string>, n: nat)
    requires n > 0 && HashesOfLength(a, n)
    ensures a == [] ==> LexLeq(Join(a), Join(b))
    ensures a != [] && b == [] ==> !LexLeq(Join(a), Join(b))
    ensures a != [] ==> Join(a) == a[0] + Tail(a)
    ensures b != [] ==> Join(b) == b[0] + Tail(b)
  {
  }

  lemma TailsOrdered(a: seq<string>, b: seq<string>)
    requires a != [] && b != []
    ensures LexLeq(Tail(a), Tail(b)) <==> |a| == 1 || (|b| > 1 && LexLeq(Join(a[1..]), Join(b[1..])))
  {
    if |a| > 1 && |b| > 1 {
      LexLeqConcat(",", ",", Join(a[1..]), Join(b[1..]));
    }
  }

  /** How a tie is decided, read off the chunk lists: by the first chunk hash that differs, and by length
      where one list begins with the other. */
  lemma TieDecidedByFirstDifference(existing: Entry, incoming: Entry, n: nat, k: nat)
    requires Tie(existing, incoming) && n > 0
    requires HashesOfLength(existing.chunkHashes, n) && HashesOfLength(incoming.chunkHashes, n)
    requires k <= |existing.chunkHashes| && k <= |incoming.chunkHashes|
    requires existing.chunkHashes[..k] == incoming.chunkHashes[..k]
    ensures k == |existing.chunkHashes| ==> Winner(existing, incoming) == incoming
    ensures k == |incoming.chunkHashes| < |existing.chunkHashes| ==> Winner(existing, incoming) == existing
    ensures
      var a, b := existing.chunkHashes, incoming.chunkHashes;
      k < |a| && k < |b| && a[k] != b[k] ==>
        Winner(existing, incoming) == if NotAfter(a[k], b[k]) then incoming else existing
  {
    var a, b := existing.chunkHashes, incoming.chunkHashes;
    LexLeqJoin(a, b, n, k);
    if k < |a| && k < |b| {
      LexLeqIff(a[k], b[k]);
    }
  }
}
