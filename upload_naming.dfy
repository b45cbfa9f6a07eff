/** The pure string logic of `upload_media` (app/api/dashboard/router.py):
    filename sanitising, the stored name, the relative stored path, the
    public URL and the media type derived from the content type. */
module UploadNaming {
  import opened Outcomes
  import opened Text

  /** No two adjacent dots. */
  predicate NoDoubleDot(s: string) {
    forall i | 0 <= i < |s| - 1 :: !(s[i] == '.' && s[i + 1] == '.')
  }

  /** No path separator. */
  predicate NoSlash(s: string) {
    forall i | 0 <= i < |s| :: s[i] != '/'
  }

  lemma {:induction false} NoDoubleDotMeansNoDotDot(s: string)
    requires NoDoubleDot(s)
    ensures !Contains(s, "..")
    decreases |s|
  {
    if |s| > 0 {
      NoDoubleDotMeansNoDotDot(s[1..]);
      if |s| >= 2 {
        assert s[..2] == [s[0], s[1]];
      }
    }
  }

  lemma {:induction false} NoSlashMeansNoSlashInside(s: string)
    requires NoSlash(s)
    ensures !Contains(s, "/")
    decreases |s|
  {
    if |s| > 0 {
      NoSlashMeansNoSlashInside(s[1..]);
      assert s[..1] == [s[0]];
    }
  }

  /** The first pass, `replace("..", "")`, leaves no two adjacent dots: a run
      of dots between two other characters shrinks to its length modulo 2,
      and the characters around it are kept. A result that does not start
      with a dot starts with the first character of the input. */
  lemma {:induction false} DotPassLeavesNoDoubleDot(s: string)
    ensures NoDoubleDot(Replace(s, "..", ""))
    ensures |s| > 0 && s[0] != '.' ==> |Replace(s, "..", "")| > 0 && Replace(s, "..", "")[0] == s[0]
    decreases |s|
  {
    if |s| < 2 {
    } else if s[..2] == ".." {
      DotPassLeavesNoDoubleDot(s[2..]);
      assert Replace(s, "..", "") == Replace(s[2..], "..", "");
    } else {
      var rest := Replace(s[1..], "..", "");
      DotPassLeavesNoDoubleDot(s[1..]);
      assert Replace(s, "..", "") == [s[0]] + rest;
      if s[0] == '.' {
        assert s[1] != '.' by { assert s[..2] == [s[0], s[1]]; }
      }
    }
  }

  /** `s.replace("/", "_")`, position by position. */
  function SlashToUnderscore(s: string): (r: string)
    ensures |r| == |s| && NoSlash(r)
  {
    seq(|s|, i requires 0 <= i < |s| => if s[i] == '/' then '_' else s[i])
  }

  lemma SlashPassIsSlashToUnderscore(s: string)
    ensures Replace(s, "/", "_") == SlashToUnderscore(s)
  {
    ReplaceOneChar(s, '/', '_');
  }

  /** sanitize: `filename.replace("..", "").replace("/", "_")`. The result
      holds neither ".." nor "/". */
  function Sanitize(filename: string): (safe: string)
    ensures NoDoubleDot(safe) && NoSlash(safe)
    ensures !Contains(safe, "..") && !Contains(safe, "/")
  {
    var once := Replace(filename, "..", "");
    DotPassLeavesNoDoubleDot(filename);
    SlashPassIsSlashToUnderscore(once);
    var safe := Replace(once, "/", "_");
    NoDoubleDotMeansNoDotDot(safe);
    NoSlashMeansNoSlashInside(safe);
    safe
  }

  /** The characters of a string other than dots, in order. */
  function WithoutDots(s: string): string {
    if s == [] then [] else (if s[0] == '.' then [] else [s[0]]) + WithoutDots(s[1..])
  }

  lemma {:induction false} DotPassKeepsOtherChars(s: string)
    ensures WithoutDots(Replace(s, "..", "")) == WithoutDots(s)
    decreases |s|
  {
    if |s| < 2 {
    } else if s[..2] == ".." {
      DotPassKeepsOtherChars(s[2..]);
      assert Replace(s, "..", "") == Replace(s[2..], "..", "");
      assert s[0] == '.' && s[1] == '.' by { assert s[..2][0] == s[0] && s[..2][1] == s[1]; }
      assert s[1..][1..] == s[2..];
      assert WithoutDots(s) == WithoutDots(s[1..]);
      assert WithoutDots(s[1..]) == WithoutDots(s[2..]);
    } else {
      var rest := Replace(s[1..], "..", "");
      DotPassKeepsOtherChars(s[1..]);
      assert Replace(s, "..", "") == [s[0]] + rest;
      assert ([s[0]] + rest)[1..] == rest;
    }
  }

  lemma {:induction false} SlashPassCommutesWithDots(s: string)
    ensures WithoutDots(SlashToUnderscore(s)) == SlashToUnderscore(WithoutDots(s))
    decreases |s|
  {
    if s != [] {
      SlashPassCommutesWithDots(s[1..]);
      assert SlashToUnderscore(s)[1..] == SlashToUnderscore(s[1..]);
      var head := if s[0] == '.' then [] else [s[0]];
      assert WithoutDots(s) == head + WithoutDots(s[1..]);
      assert SlashToUnderscore(head + WithoutDots(s[1..]))
          == SlashToUnderscore(head) + SlashToUnderscore(WithoutDots(s[1..]));
    }
  }

  /** Sanitising removes nothing but dots: every other character of the
      filename survives, in order, with "/" turned into "_". */
  lemma SanitizeKeepsOtherChars(filename: string)
    ensures WithoutDots(Sanitize(filename)) == SlashToUnderscore(WithoutDots(filename))
  {
    var once := Replace(filename, "..", "");
    DotPassKeepsOtherChars(filename);
    SlashPassIsSlashToUnderscore(once);
    SlashPassCommutesWithDots(once);
  }

  /** The output of `utcnow().strftime("%Y%m%d%H%M%S%f")`: four digits of
      year, two each of month, day, hour, minute and second, and six of
      microseconds. */
  type Timestamp = s: string | |s| == 20 && AllDigits(s) witness "00000000000000000000"

  /** `f"{timestamp}_{safe_name}"` */
  function StoredName(timestamp: Timestamp, safeName: string): string {
    timestamp + "_" + safeName
  }

  /** `uploads/subscriber_<user_id>/<date>`, relative to `uploads/`. */
  function UploadDir(userId: int, date: string): string {
    "subscriber_" + IntToString(userId) + "/" + date
  }

  /** `(Path(f"subscriber_{user_id}") / date / stored_name).as_posix()` */
  function StoredPath(userId: int, date: string, storedName: string): string {
    UploadDir(userId, date) + "/" + storedName
  }

  /** `f"/uploads/{rel_path}"` */
  function PublicUrl(storedPath: string): string {
    "/uploads/" + storedPath
  }

  /** The stored name of an upload is a single safe path component: not
      empty, not "." or "..", and holding neither ".." nor "/". */
  lemma StoredNameIsOneComponent(timestamp: Timestamp, filename: string)
    ensures var name := StoredName(timestamp, Sanitize(filename));
            && name != "" && name != "." && name != ".."
            && !Contains(name, "..") && !Contains(name, "/")
  {
    var safe := Sanitize(filename);
    var name := StoredName(timestamp, safe);
    var k := |timestamp|;
    assert name[k] == '_';
    forall i | 0 <= i < |name| - 1
      ensures !(name[i] == '.' && name[i + 1] == '.')
    {
      if i < k {
        assert name[i] == timestamp[i] && IsDigit(timestamp[i]);
      } else if i > k {
        assert name[i] == safe[i - k - 1] && name[i + 1] == safe[i - k];
      }
    }
    forall i | 0 <= i < |name|
      ensures name[i] != '/'
    {
      if i < k {
        assert name[i] == timestamp[i] && IsDigit(timestamp[i]);
      } else if i > k {
        assert name[i] == safe[i - k - 1];
      }
    }
    NoDoubleDotMeansNoDotDot(name);
    NoSlashMeansNoSlashInside(name);
  }

  /** The file is stored strictly inside `subscriber_<user_id>/<date>/`: the
      stored path is that directory, a "/", and one safe component. */
  lemma StoredPathInsideUploadDir(userId: int, date: string, timestamp: Timestamp, filename: string)
    ensures var dir := UploadDir(userId, date);
            var path := StoredPath(userId, date, StoredName(timestamp, Sanitize(filename)));
            var name := path[|dir| + 1..];
            && StartsWith(path, dir + "/")
            && name == StoredName(timestamp, Sanitize(filename))
            && name != "." && name != ".." && !Contains(name, "/") && !Contains(name, "..")
  {
    var dir := UploadDir(userId, date);
    var name := StoredName(timestamp, Sanitize(filename));
    var path := StoredPath(userId, date, name);
    assert path == (dir + "/") + name;
    assert path[..|dir| + 1] == dir + "/";
    assert path[|dir| + 1..] == name;
    StoredNameIsOneComponent(timestamp, filename);
  }

  const Image: string := "image"
  const Video: string := "video"
  const File: string := "file"

  /** The media type of an upload: the content type is lower-cased (a
      missing one counts as ""), then "image" if it starts with "image",
      else "video" if it starts with "video", else "file". Lower-casing
      ASCII letters only gives the same type as Python's full `lower()`:
      the only non-ASCII characters that lower to ASCII are U+212A (to "k")
      and U+0130 (to "i" followed by U+0307), and neither can make a
      string start with "image" or "video". */
  function MediaTypeOf(contentType: Option<string>): (t: string)
    ensures t == Image || t == Video || t == File
    ensures t == Image <==> StartsWith(Lower(contentType.GetOr("")), Image)
    ensures t == Video <==> !StartsWith(Lower(contentType.GetOr("")), Image)
                            && StartsWith(Lower(contentType.GetOr("")), Video)
  {
    var ctype := Lower(contentType.GetOr(""));
    if StartsWith(ctype, Image) then Image
    else if StartsWith(ctype, Video) then Video
    else File
  }

  /** The classification ignores case, and a missing content type is
      classified like an empty one, as a plain file. */
  lemma MediaTypeIgnoresCase(contentType: string)
    ensures MediaTypeOf(Some(contentType)) == MediaTypeOf(Some(Lower(contentType)))
    ensures MediaTypeOf(None) == MediaTypeOf(Some("")) == File
  {
    LowerIdempotent(contentType);
  }
}
