/**
 * The upload filter: a file name is accepted when the text after its last
 * '.', lower-cased, is one of the image extensions the service takes.
 */
module Filenames {
  import opened Wrappers

  /** The extensions an upload may carry, in lower case. */
  const AllowedExtensions: set<string> := {"png", "jpg", "jpeg", "gif", "bmp"}

  /**
   * `s.rsplit(sep, 1)`: the text before and after the last `sep`, or None
   * when `sep` does not occur in `s` (where Python returns a one-element list).
   */
  function SplitAtLast(s: string, sep: char): (r: Option<(string, string)>)
    ensures r.None? <==> sep !in s
    ensures r.Some? ==> s == r.value.0 + [sep] + r.value.1 && sep !in r.value.1
    decreases |s|
  {
    if |s| == 0 then None
    else if s[|s| - 1] == sep then Some((s[..|s| - 1], ""))
    else
      match SplitAtLast(s[..|s| - 1], sep)
      case None => None
      case Some((head, tail)) => Some((head, tail + [s[|s| - 1]]))
  }

  /** `str.lower()` on one character, for the ASCII letters. */
  function LowerChar(c: char): char {
    if 'A' <= c <= 'Z' then (c as int + 32) as char else c
  }

  /** `str.lower()`, character by character: no upper-case letter is left, and nothing else changes. */
  function Lower(s: string): (r: string)
    ensures |r| == |s|
    ensures forall i :: 0 <= i < |r| ==> !('A' <= r[i] <= 'Z')
    ensures forall i :: 0 <= i < |s| && !('A' <= s[i] <= 'Z') ==> r[i] == s[i]
  {
    seq(|s|, i requires 0 <= i < |s| => LowerChar(s[i]))
  }

  /**
   * `allowed_file`: a '.' occurs and the lower-cased text after the last one
   * is an allowed extension. So an accepted name does not end in '.', and at
   * least three characters (the shortest extension) follow its last '.'.
   */
  predicate AllowedFile(filename: string): (ok: bool)
    ensures ok ==> '.' in filename && filename[|filename| - 1] != '.'
    ensures ok ==> 4 <= |filename| && '.' !in filename[|filename| - 3..]
  {
    '.' in filename &&
    var (head, tail) := SplitAtLast(filename, '.').value;
    assert filename == head + ['.'] + tail;
    Lower(tail) in AllowedExtensions
  }

  /** `k` is the position of the last `sep` in `s`. */
  ghost predicate LastAt(s: string, sep: char, k: int) {
    0 <= k < |s| && s[k] == sep && forall j :: k < j < |s| ==> s[j] != sep
  }

  /** Any decomposition around a `sep` that has no `sep` after it is the one `rsplit` finds. */
  lemma SplitIsUnique(s: string, sep: char, head: string, tail: string)
    requires s == head + [sep] + tail && sep !in tail
    ensures SplitAtLast(s, sep) == Some((head, tail))
  {
    assert LastAt(s, sep, |head|) by {
      forall j | |head| < j < |s| ensures s[j] != sep {
        assert s[j] == tail[j - |head| - 1];
      }
    }
    var r := SplitAtLast(s, sep);
    assert s[|head|] == sep;
    var h, t := r.value.0, r.value.1;
    assert LastAt(s, sep, |h|) by {
      forall j | |h| < j < |s| ensures s[j] != sep {
        assert s[j] == t[j - |h| - 1];
      }
    }
    assert |h| == |head|;
    assert h == s[..|h|] == head;
    assert t == s[|h| + 1..] == tail;
  }

  /**
   * The meaning of `allowed_file`: there is a '.' with no '.' after it, and
   * the lower-cased text after it is an allowed extension.
   */
  lemma AllowedFileMeaning(filename: string)
    ensures AllowedFile(filename) <==>
      exists k :: LastAt(filename, '.', k) && Lower(filename[k + 1..]) in AllowedExtensions
  {
    if '.' in filename {
      var r := SplitAtLast(filename, '.');
      var k := |r.value.0|;
      assert filename[k + 1..] == r.value.1;
      assert LastAt(filename, '.', k) by {
        forall j | k < j < |filename| ensures filename[j] != '.' {
          assert filename[j] == r.value.1[j - k - 1];
        }
      }
      forall k' | LastAt(filename, '.', k') ensures k' == k { }
    }
  }

  /** Only the final extension decides: the stem, dots included, plays no part. */
  lemma OnlyFinalExtensionCounts(stem: string, ext: string)
    requires '.' !in ext
    ensures AllowedFile(stem + "." + ext) <==> Lower(ext) in AllowedExtensions
  {
    SplitIsUnique(stem + "." + ext, '.', stem, ext);
  }

  /** A name with no '.' at all is refused. */
  lemma NoDotRejected(filename: string)
    requires '.' !in filename
    ensures !AllowedFile(filename)
  {
  }

  /** A name ending in '.' has an empty extension and is refused. */
  lemma TrailingDotRejected(stem: string)
    ensures !AllowedFile(stem + ".")
  {
    OnlyFinalExtensionCounts(stem, "");
    assert Lower("") == "";
  }

  lemma LowerIdempotent(s: string)
    ensures Lower(Lower(s)) == Lower(s)
  {
  }

  lemma LowerConcat(a: string, b: string)
    ensures Lower(a + b) == Lower(a) + Lower(b)
  {
  }

  /** The filter ignores case: lower-casing the whole name first changes nothing. */
  lemma CaseInsensitive(filename: string)
    ensures AllowedFile(Lower(filename)) <==> AllowedFile(filename)
  {
    if '.' in filename {
      var r := SplitAtLast(filename, '.');
      var head, tail := r.value.0, r.value.1;
      LowerConcat(head + ".", tail);
      LowerConcat(head, ".");
      assert Lower(".") == ".";
      assert '.' !in Lower(tail) by {
        forall i | 0 <= i < |tail| ensures Lower(tail)[i] != '.' {
          assert tail[i] != '.';
        }
      }
      OnlyFinalExtensionCounts(Lower(head), Lower(tail));
      OnlyFinalExtensionCounts(head, tail);
      LowerIdempotent(tail);
    } else {
      assert '.' !in Lower(filename) by {
        forall i | 0 <= i < |filename| ensures Lower(filename)[i] != '.' {
          assert filename[i] != '.';
        }
      }
    }
  }

  /** An upper-case extension passes. */
  lemma UpperCaseExtensionAccepted()
    ensures AllowedFile("a.PNG")
  {
    assert "a.PNG" == "a" + "." + "PNG";
    OnlyFinalExtensionCounts("a", "PNG");
    assert Lower("PNG") == "png";
  }

  /** Dots in the stem do not matter: a name whose last extension is allowed passes. */
  lemma EarlierExtensionIgnored()
    ensures AllowedFile("x.exe.png")
  {
    assert "x.exe.png" == "x.exe" + "." + "png";
    OnlyFinalExtensionCounts("x.exe", "png");
    assert Lower("png") == "png";
  }

  /** An allowed extension that is not the last one does not let a name pass. */
  lemma OnlyLastExtensionCounts()
    ensures !AllowedFile("a.png.exe")
  {
    assert "a.png.exe" == "a.png" + "." + "exe";
    OnlyFinalExtensionCounts("a.png", "exe");
    assert Lower("exe") == "exe";
  }

  /** Names without an extension fail. */
  lemma MissingExtensionRejected()
    ensures !AllowedFile("archive")
    ensures !AllowedFile("a.")
  {
    NoDotRejected("archive");
    assert "a." == "a" + ".";
    TrailingDotRejected("a");
  }
}
