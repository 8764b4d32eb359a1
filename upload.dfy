/**
 * backend/middleware/upload.js: which uploaded files Multer keeps and the
 * name a kept file is stored under. The upload folder and its creation are
 * disk I/O and stay outside the model; file names are taken without '/'.
 */
module Upload {
  import opened Wrappers
  import Text

  /** `limits.fileSize`: 5 MiB. */
  const MaxFileSize: nat := 5 * 1024 * 1024

  /** `fileFilter`: only MIME types starting with "image/" (case-sensitive) pass. */
  function FileFilter(mimetype: string): (accepted: bool)
    ensures accepted <==> |mimetype| >= 6 && mimetype[..6] == "image/"
  {
    Text.IsPrefix("image/", mimetype)
  }

  lemma FileFilterSamples()
    ensures FileFilter("image/png") && FileFilter("image/")
    ensures !FileFilter("text/plain") && !FileFilter("IMAGE/PNG") && !FileFilter("image")
  {
    assert "text/plain"[..6] != "image/" by { assert "text/plain"[0] == 't'; }
    assert "IMAGE/PNG"[..6] != "image/" by { assert "IMAGE/PNG"[0] == 'I'; }
  }

  /** The position of the last `c` in `s`. */
  function LastIndexOf(s: string, c: char): (r: Option<nat>)
    ensures r.None? <==> c !in s
    ensures r.Some? ==> r.value < |s| && s[r.value] == c && c !in s[r.value + 1..]
  {
    if |s| == 0 then None
    else if s[|s| - 1] == c then
      assert s[|s|..] == [];
      Some(|s| - 1)
    else
      var r := LastIndexOf(s[..|s| - 1], c);
      assert s == s[..|s| - 1] + [s[|s| - 1]];
      if r.Some? then
        assert s[r.value + 1..] == s[..|s| - 1][r.value + 1..] + [s[|s| - 1]];
        r
      else r
  }

  /** An occurrence with no later one is the last. */
  lemma LastIndexAt(s: string, c: char, k: nat)
    requires k < |s| && s[k] == c && c !in s[k + 1..]
    ensures LastIndexOf(s, c) == Some(k)
  {
    assert c in s;
  }

  /**
   * Node's `path.extname` on a name without '/': from the last '.' to the
   * end, except that a name whose only dot leads it (".bashrc") and the
   * name ".." have no extension.
   */
  function ExtName(name: string): (ext: string)
    ensures ext == "" || (ext[0] == '.' && '.' !in ext[1..])
    ensures Text.IsSuffix(ext, name)
    ensures '.' !in name ==> ext == ""
  {
    var k := LastIndexOf(name, '.');
    if k.None? || k.value == 0 || name == ".." then ""
    else
      assert name[k.value..][1..] == name[k.value + 1..];
      name[k.value..]
  }

  /** Node's `path.basename(name, ext)` on a name without '/': a proper, non-empty suffix `ext` is cut off. */
  function BaseName(name: string, ext: string): (base: string)
    ensures Text.IsSuffix(ext, name) && ext != name ==> base + ext == name
    ensures !Text.IsSuffix(ext, name) ==> base == name
  {
    if ext != "" && Text.IsSuffix(ext, name) && ext != name then name[..|name| - |ext|]
    else if ext != "" && ext == name then ""
    else name
  }

  /** The `filename` callback: `${baseName}-${Date.now()}${ext}`. */
  function StoredFilename(originalname: string, now: nat): (stored: string)
  {
    Stamped(originalname, "-" + Text.IntToString(now))
  }

  /** The original name with `stamp` put in before its extension. */
  function Stamped(originalname: string, stamp: string): string {
    var ext := ExtName(originalname);
    BaseName(originalname, ext) + stamp + ext
  }

  /** The stored name is the original name with "-" and the timestamp put in before its extension. */
  lemma StoredNameShape(originalname: string, now: nat)
    ensures var ext := ExtName(originalname);
            var base := BaseName(originalname, ext);
            && base + ext == originalname
            && StoredFilename(originalname, now) == base + "-" + Text.NatToString(now) + ext
  {
  }

  /** The timestamp and its dash contain no dot. */
  lemma StampHasNoDot(now: nat)
    ensures '.' !in "-" + Text.NatToString(now)
  {
    var d := Text.NatToString(now);
    var t := "-" + d;
    forall i | 0 <= i < |t| ensures t[i] != '.' {
      if i > 0 {
        assert t[i] == d[i - 1] && Text.IsDigit(d[i - 1]);
      }
    }
  }

  /** A name whose last dot sits at `k > 0` (and that is not "..") has the extension from `k` on. */
  lemma ExtNameAt(s: string, k: nat)
    requires 0 < k < |s| && s[k] == '.' && '.' !in s[k + 1..] && s != ".."
    ensures ExtName(s) == s[k..]
  {
    LastIndexAt(s, '.', k);
  }

  /** Inserting a non-empty, dot-free stamp keeps a non-empty extension. */
  lemma StampKeepsNonEmptyExtension(originalname: string, stamp: string)
    requires ExtName(originalname) != "" && stamp != [] && '.' !in stamp
    ensures ExtName(Stamped(originalname, stamp)) == ExtName(originalname)
  {
    var ext := ExtName(originalname);
    var prefix := BaseName(originalname, ext) + stamp;
    var stored := prefix + ext;
    var k := |prefix|;
    assert stored[k..] == ext;
    assert stored[k + 1..] == ext[1..];
    assert stored != ".." by {
      assert |stored| >= 3 || stored[k - 1] != '.';
    }
    ExtNameAt(stored, k);
  }

  /** Inserting a dot-free stamp into a name without an extension (other than "..") adds none. */
  lemma StampKeepsEmptyExtension(originalname: string, stamp: string)
    requires ExtName(originalname) == "" && originalname != ".." && '.' !in stamp
    ensures ExtName(Stamped(originalname, stamp)) == ""
  {
    var stored := Stamped(originalname, stamp);
    assert stored == originalname + stamp;
    var k := LastIndexOf(originalname, '.');
    if k.Some? {
      assert k.value == 0;
      assert stored[0] == '.';
      assert '.' !in stored[1..] by {
        assert stored[1..] == originalname[1..] + stamp;
      }
      LastIndexAt(stored, '.', 0);
    } else {
      assert '.' !in stored by {
        forall i | 0 <= i < |stored| ensures stored[i] != '.' {
          if i < |originalname| {
            assert stored[i] == originalname[i];
          } else {
            assert stored[i] == stamp[i - |originalname|];
          }
        }
      }
    }
  }

  /** A name that has an extension keeps it. */
  lemma KeepsNonEmptyExtension(originalname: string, now: nat)
    requires ExtName(originalname) != ""
    ensures ExtName(StoredFilename(originalname, now)) == ExtName(originalname)
  {
    StampHasNoDot(now);
    StampKeepsNonEmptyExtension(originalname, "-" + Text.NatToString(now));
  }

  /** A name without an extension gets none, unless it is "..". */
  lemma KeepsEmptyExtension(originalname: string, now: nat)
    requires ExtName(originalname) == "" && originalname != ".."
    ensures ExtName(StoredFilename(originalname, now)) == ""
  {
    StampHasNoDot(now);
    StampKeepsEmptyExtension(originalname, "-" + Text.NatToString(now));
  }

  /** The stored name keeps the original extension, for every name but "..". */
  lemma StoredNameKeepsExtension(originalname: string, now: nat)
    requires originalname != ".."
    ensures ExtName(StoredFilename(originalname, now)) == ExtName(originalname)
  {
    if ExtName(originalname) != "" {
      KeepsNonEmptyExtension(originalname, now);
    } else {
      KeepsEmptyExtension(originalname, now);
    }
  }

  /** A dot-free stamp put into ".." yields a name whose extension is ".": the second dot and the stamp. */
  lemma StampedDotDot(stamp: string)
    requires stamp != [] && '.' !in stamp
    ensures ExtName(Stamped("..", stamp)) == "." + stamp
  {
    assert ExtName("..") == "";
    var stored := Stamped("..", stamp);
    assert stored == ".." + stamp;
    assert stored != "..";
    assert '.' !in stored[2..] by { assert stored[2..] == stamp; }
    LastIndexAt(stored, '.', 1);
    assert stored[1..] == "." + stamp;
  }

  /** ".." has no extension, but its stored name "..-<time>" has one. */
  lemma DotDotGainsExtension(now: nat)
    ensures ExtName("..") == ""
    ensures ExtName(StoredFilename("..", now)) == ".-" + Text.NatToString(now)
  {
    StampHasNoDot(now);
    StampedDotDot("-" + Text.NatToString(now));
    assert "." + ("-" + Text.NatToString(now)) == ".-" + Text.NatToString(now);
  }

  /** What Multer does with one incoming file. */
  datatype Received = NotAnImage | TooLarge | Stored(filename: string)

  /**
   * The filter runs first, then the size limit applies while the file is
   * written: a file of exactly 5 MiB is kept, one byte more is refused.
   */
  function Receive(mimetype: string, size: nat, originalname: string, now: nat): (r: Received)
    ensures r == NotAnImage <==> !FileFilter(mimetype)
    ensures r == TooLarge <==> FileFilter(mimetype) && size > MaxFileSize
    ensures r.Stored? <==> FileFilter(mimetype) && size <= 5242880
    ensures r.Stored? ==> r.filename == StoredFilename(originalname, now)
  {
    if !FileFilter(mimetype) then NotAnImage
    else if size > MaxFileSize then TooLarge
    else Stored(StoredFilename(originalname, now))
  }
}
