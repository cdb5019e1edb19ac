/** Windows path forms, and the conversion to the `\\?\` form that long paths need. */
module WindowsPaths {
  import opened Prelude

  const BACKSLASH: Unit := 92
  const QUESTION_MARK: Unit := 63
  const COLON: Unit := 58

  /** `\\?\` */
  const LONG_PREFIX: Wide := [BACKSLASH, BACKSLASH, QUESTION_MARK, BACKSLASH]
  /** `\\?\UNC\` */
  const LONG_UNC_PREFIX: Wide := LONG_PREFIX + [85, 78, 67, BACKSLASH]
  /** Directory paths of up to this length need no conversion. */
  const MAX_PLAIN_LENGTH := 240

  predicate IsLetter(u: Unit) { 97 <= u <= 122 || 65 <= u <= 90 }

  /** `C:\...` */
  predicate IsAbsoluteLocalPath(path: Wide) {
    |path| >= 3 && IsLetter(path[0]) && path[1] == COLON && path[2] == BACKSLASH
  }

  /** `\\...` */
  predicate IsAbsoluteUncPath(path: Wide) {
    |path| >= 3 && path[0] == BACKSLASH && path[1] == BACKSLASH
  }

  predicate IsLongPath(path: Wide) {
    |path| >= 4 && path[..4] == LONG_PREFIX
  }

  predicate IsUncLongPath(path: Wide) {
    |path| >= 8 && path[..8] == LONG_UNC_PREFIX
  }

  function LongPath(path: Wide): Wide {
    if |path| <= MAX_PLAIN_LENGTH || IsLongPath(path) then path
    else if IsAbsoluteLocalPath(path) then LONG_PREFIX + path
    else if IsAbsoluteUncPath(path) then LONG_UNC_PREFIX + path[2..]
    else path
  }

  /** convertToLongPathIfNeeded, editing its string step by step. */
  method ConvertToLongPathIfNeeded(path: Wide) returns (result: Wide)
    ensures result == LongPath(path)
  {
    result := path;
    if |result| <= MAX_PLAIN_LENGTH {
      return;
    }
    if IsLongPath(result) {
      return;
    }
    if IsAbsoluteLocalPath(result) {
      result := LONG_PREFIX + result;
    } else if IsAbsoluteUncPath(result) {
      result := result[2..];
      result := LONG_UNC_PREFIX + result;
    }
  }

  /** The ordinary spelling of a path: what a `\\?\` form stands for. */
  function PlainPath(path: Wide): Wide {
    if IsUncLongPath(path) then [BACKSLASH, BACKSLASH] + path[8..]
    else if IsLongPath(path) then path[4..]
    else path
  }

  /** Conversion does not change which path is meant. */
  lemma PlainOfLong(path: Wide)
    requires !IsLongPath(path)
    ensures PlainPath(LongPath(path)) == path
  {
    var long := LongPath(path);
    if |path| > MAX_PLAIN_LENGTH {
      if IsAbsoluteLocalPath(path) {
        assert long[4..] == path && long[..4] == LONG_PREFIX;
        assert long[5] == COLON && LONG_UNC_PREFIX[5] == 78;
        assert |long| >= 8 ==> long[..8][5] == COLON;
      } else if IsAbsoluteUncPath(path) {
        assert long[..8] == LONG_UNC_PREFIX && long[8..] == path[2..];
      }
    }
    assert |path| >= 8 ==> path[..8][..4] == path[..4];
    assert LONG_UNC_PREFIX[..4] == LONG_PREFIX;
  }

  /** Converting a converted path changes nothing, and a path grows by 0, 4 or 6 units. */
  lemma LongPathOnce(path: Wide)
    ensures LongPath(LongPath(path)) == LongPath(path)
    ensures |LongPath(path)| - |path| in {0, 4, 6}
    ensures LongPath(path) != path <==>
      |path| > MAX_PLAIN_LENGTH && !IsLongPath(path) && (IsAbsoluteLocalPath(path) || IsAbsoluteUncPath(path))
  {}

  /** Two paths convert to the same one exactly when they are equal or one is the converted form of the other. */
  lemma CollisionsAreConversions(p: Wide, q: Wide)
    ensures LongPath(p) == LongPath(q) <==> p == q || q == LongPath(p) || p == LongPath(q)
    ensures !IsLongPath(p) && !IsLongPath(q) && LongPath(p) == LongPath(q) ==> p == q
  {
    LongPathOnce(p);
    LongPathOnce(q);
    if !IsLongPath(p) && !IsLongPath(q) {
      PlainOfLong(p);
      PlainOfLong(q);
    }
  }

  /** Paths of up to 240 units stay as they are, and so does whatever has the long form already. */
  lemma ShortPathsStay(path: Wide)
    ensures |path| <= 240 || (|path| >= 4 && path[..4] == [92, 92, 63, 92]) ==> LongPath(path) == path
  {}

  /** From 241 units on, a path that begins with a letter from A to Z or a to z, a colon and a backslash gets `\\?\` in front. */
  lemma DrivePathsGrow(path: Wide)
    requires |path| >= 241 && path[1] == 58 && path[2] == 92
    ensures 65 <= path[0] <= 90 || 97 <= path[0] <= 122 ==> LongPath(path) == [92, 92, 63, 92] + path
    ensures !(65 <= path[0] <= 90 || 97 <= path[0] <= 122) ==> LongPath(path) == path
  {
    assert |path| >= 4 ==> path[..4][1] == path[1];
  }

  /** From 241 units on, a path that begins with two backslashes, but not in the long form, has them replaced by `\\?\UNC\`. */
  lemma SharePathsGrow(path: Wide)
    requires |path| >= 241 && path[0] == 92 && path[1] == 92
    ensures path[2] != 63 || path[3] != 92 ==> LongPath(path) == [92, 92, 63, 92, 85, 78, 67, 92] + path[2..]
  {
    assert path[..4][2] == path[2] && path[..4][3] == path[3];
  }
}
