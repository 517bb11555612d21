/**
 Names on the share: how a remote path is split for the transfer commands, which name a
 converted file is published under, and when two videos are published under one name.
 */
module RemotePaths {
  import opened Wrappers

  datatype Parts = Parts(before: string, after: string)

  /** `rsplit_once`: what stands before and after the last `c`. */
  function RSplitOnce(s: string, c: char): (r: Option<Parts>)
    ensures r.None? ==> c !in s
    ensures r.Some? ==> s == r.value.before + [c] + r.value.after && c !in r.value.after
  {
    if s == "" then None
    else
      var n := |s| - 1;
      assert s == s[..n] + [s[n]];
      if s[n] == c then Some(Parts(s[..n], ""))
      else
        match RSplitOnce(s[..n], c)
        case None => None
        case Some(p) => Some(Parts(p.before, p.after + [s[n]]))
  }

  lemma {:induction false} RSplitIs(before: string, c: char, after: string)
    requires c !in after
    ensures RSplitOnce(before + [c] + after, c) == Some(Parts(before, after))
    decreases |after|
  {
    var s := before + [c] + after;
    var n := |s| - 1;
    if after == "" {
      assert s[..n] == before;
    } else {
      var init := after[..|after| - 1];
      assert s[..n] == before + [c] + init;
      RSplitIs(before, c, init);
      assert after == init + [s[n]];
    }
  }

  function TrimStart(s: string, c: char): (r: string)
    ensures r != "" ==> r[0] != c
  {
    if s != "" && s[0] == c then TrimStart(s[1..], c) else s
  }

  function FileName(path: string): (file: string)
    ensures '/' !in file
  {
    match RSplitOnce(path, '/')
    case Some(p) => p.after
    case None => path
  }

  function Stem(file: string): string {
    match RSplitOnce(file, '.')
    case Some(p) => p.before
    case None => file
  }

  /** Directory and file as the transfer commands name them. */
  datatype Remote = Remote(dir: string, file: string)

  function SplitRemotePath(path: string): Remote {
    var trimmed := TrimStart(path, '/');
    match RSplitOnce(trimmed, '/')
    case Some(p) => Remote(p.before, p.after)
    case None => Remote(".", trimmed)
  }

  function ConvertedName(file: string, codec: string): string {
    Stem(file) + ("_" + codec + ".mkv")
  }

  function RemoteConvertedPath(path: string, codec: string): string {
    match RSplitOnce(path, '/')
    case Some(p) => p.before + "/" + ConvertedName(p.after, codec)
    case None => ConvertedName(path, codec)
  }

  const UPLOADING := ".uploading"

  function Temporary(r: Remote): Remote {
    r.(file := r.file + UPLOADING)
  }

  lemma {:induction false} TrimKeepsName(dir: string, file: string)
    requires '/' !in file
    ensures TrimStart(dir + "/" + file, '/')
            == if TrimStart(dir, '/') == "" then file else TrimStart(dir, '/') + "/" + file
    decreases |dir|
  {
    var path := dir + "/" + file;
    if dir == "" {
      assert path[1..] == file;
      assert file == "" || file[0] in file;
    } else if dir[0] == '/' {
      assert path[1..] == dir[1..] + "/" + file;
      TrimKeepsName(dir[1..], file);
    }
  }

  /** Only what precedes the last slash decides the directory; the file name is taken as it is. */
  lemma SplitOfParts(dir: string, file: string)
    requires '/' !in file
    ensures SplitRemotePath(dir + "/" + file)
            == Remote(if TrimStart(dir, '/') == "" then "." else TrimStart(dir, '/'), file)
  {
    TrimKeepsName(dir, file);
    var kept := TrimStart(dir, '/');
    if kept != "" {
      RSplitIs(kept, '/', file);
    } else {
      assert RSplitOnce(file, '/').None?;
    }
  }

  lemma SplitOfName(file: string)
    requires '/' !in file
    ensures SplitRemotePath(file) == Remote(".", file) && RSplitOnce(file, '/').None?
  {
    assert file == "" || file[0] in file;
  }

  lemma SplitKeepsName(path: string)
    ensures SplitRemotePath(path).file == FileName(path)
  {
    match RSplitOnce(path, '/')
    case Some(p) => SplitOfParts(p.before, p.after);
    case None => SplitOfName(path);
  }

  /** The converted file lands beside its source, under the source's stem. */
  lemma ConvertedRemote(path: string, codec: string)
    requires '/' !in codec
    ensures SplitRemotePath(RemoteConvertedPath(path, codec))
            == Remote(SplitRemotePath(path).dir, ConvertedName(FileName(path), codec))
  {
    var file := ConvertedName(FileName(path), codec);
    NoSlash(FileName(path), codec);
    match RSplitOnce(path, '/')
    case Some(p) =>
      SplitOfParts(p.before, p.after);
      SplitOfParts(p.before, file);
    case None =>
      SplitOfName(path);
      SplitOfName(file);
  }

  lemma NoSlash(file: string, codec: string)
    requires '/' !in file && '/' !in codec
    ensures '/' !in ConvertedName(file, codec)
  {
    match RSplitOnce(file, '.')
    case Some(p) => assert forall ch <- p.before :: ch in file;
    case None =>
  }

  /** A converted name's stem extends the source's stem, and a temporary name's is the converted name. */
  lemma ConvertedStem(source: string, codec: string)
    ensures Stem(ConvertedName(source, codec)) == Stem(source) + ("_" + codec)
    ensures Stem(ConvertedName(source, codec) + UPLOADING) == ConvertedName(source, codec)
  {
    StemDropsExtension(Stem(source) + ("_" + codec), "mkv");
    StemDropsExtension(ConvertedName(source, codec), "uploading");
    hide RSplitOnce, Stem;
    MkvSuffix(Stem(source), codec);
  }

  lemma MkvSuffix(stem: string, codec: string)
    ensures stem + ("_" + codec + ".mkv") == stem + ("_" + codec) + ("." + "mkv")
    ensures UPLOADING == "." + "uploading"
  {
    assert ".mkv" == "." + "mkv";
    assert "_" + codec + ("." + "mkv") == "_" + codec + ".mkv";
  }

  lemma StemDropsExtension(stem: string, extension: string)
    requires '.' !in extension
    ensures Stem(stem + ("." + extension)) == stem
  {
    RSplitIs(stem, '.', extension);
    assert stem + ("." + extension) == stem + ['.'] + extension;
  }

  /** Neither the upload's temporary name nor its final name is the source's own name. */
  lemma UploadNeverReplacesItsSource(path: string, codec: string)
    requires '/' !in codec
    ensures var target := SplitRemotePath(RemoteConvertedPath(path, codec));
            target != SplitRemotePath(path) && Temporary(target) != SplitRemotePath(path)
  {
    ConvertedRemote(path, codec);
    SplitKeepsName(path);
    ConvertedStem(FileName(path), codec);
    hide RSplitOnce, Stem, FileName, SplitRemotePath, RemoteConvertedPath;
    assert |ConvertedName(FileName(path), codec)| > |Stem(FileName(path))|;
  }

  lemma SuffixCancels(a: string, b: string, tail: string)
    ensures a + tail == b + tail <==> a == b
  {
    if a + tail == b + tail {
      assert a == (a + tail)[..|a|] && b == (b + tail)[..|b|];
      assert |a + tail| == |b + tail|;
    }
  }

  /**
   Two videos are published under the same name exactly when they sit in the same
   directory and differ only in their extension; a temporary name is never a final one.
   */
  lemma ConvertedNamesClash(a: string, b: string, codec: string)
    requires '/' !in codec
    ensures var p := SplitRemotePath(RemoteConvertedPath(a, codec));
            var q := SplitRemotePath(RemoteConvertedPath(b, codec));
            && (p == q <==> SplitRemotePath(a).dir == SplitRemotePath(b).dir && Stem(FileName(a)) == Stem(FileName(b)))
            && Temporary(p) != q
  {
    ConvertedRemote(a, codec);
    ConvertedRemote(b, codec);
    var tail := "_" + codec + ".mkv";
    SuffixCancels(Stem(FileName(a)), Stem(FileName(b)), tail);
    var x := ConvertedName(FileName(a), codec) + UPLOADING;
    var y := ConvertedName(FileName(b), codec);
    assert x[|x| - 1] == 'g' && y[|y| - 1] == 'v';
  }

  /** At the root there is no directory to keep, and a name without extension is its own stem. */
  lemma RootNamesConvert(stem: string, extension: string, codec: string)
    requires '/' !in stem && '/' !in extension && '.' !in extension
    ensures RemoteConvertedPath(stem + "." + extension, codec) == stem + ("_" + codec + ".mkv")
    ensures '.' !in stem ==> RemoteConvertedPath(stem, codec) == stem + ("_" + codec + ".mkv")
  {
    SplitOfName(stem + "." + extension);
    SplitOfName(stem);
    RSplitIs(stem, '.', extension);
  }

  /** `movies/foo.mp4` and `movies/foo.avi` both become `movies/foo_av1.mkv`. */
  lemma ExtensionIsDropped(dir: string, stem: string, extension: string, codec: string)
    requires '/' !in stem && '/' !in extension && '.' !in extension
    ensures RemoteConvertedPath(dir + "/" + (stem + "." + extension), codec)
            == dir + "/" + (stem + ("_" + codec + ".mkv"))
  {
    var file := stem + "." + extension;
    RSplitIs(dir, '/', file);
    RSplitIs(stem, '.', extension);
  }
}
