/**
 The `file_path` values that tie graph evidence to a document (`EncodeGraphFileSource` and
 `ParseGraphFileSource` of `internal/biz/rag/graph.go`). The pattern
 `^(.+)_(\d+)((?:\.[A-Za-z0-9]+)*)$` is stated as a relation, so that nothing depends on how a
 regular-expression engine looks for a match.
 */
module GraphFileSource {
  import opened Basics
  import Text

  datatype FileSource = FileSource(collectionName: string, docID: string)

  predicate IsDigit(c: char) {
    '0' <= c <= '9'
  }

  predicate IsAlphanumeric(c: char) {
    IsDigit(c) || 'A' <= c <= 'Z' || 'a' <= c <= 'z'
  }

  predicate AllDigits(s: string) {
    forall i :: 0 <= i < |s| ==> IsDigit(s[i])
  }

  /** `(?:\.[A-Za-z0-9]+)*` */
  predicate IsExtension(s: string) {
    || s == ""
    || (exists k :: 1 < k <= |s| && s[0] == '.' && AllAlphanumeric(s[1..k]) && IsExtension(s[k..]))
  }

  predicate AllAlphanumeric(s: string) {
    forall i :: 0 <= i < |s| ==> IsAlphanumeric(s[i])
  }

  /** `base` matches the pattern with these three groups. */
  predicate Matches(base: string, collection: string, docID: string, extension: string) {
    && base == collection + "_" + docID + extension
    && collection != "" && '\n' !in collection
    && docID != "" && AllDigits(docID)
    && IsExtension(extension)
  }

  /** `strings.LastIndex` of one character, or -1. */
  function LastIndex(s: string, c: char): (i: int)
    ensures -1 <= i < |s|
    ensures i >= 0 ==> s[i] == c
    ensures forall k :: i < k < |s| ==> s[k] != c
  {
    if s == "" then -1
    else if s[|s| - 1] == c then |s| - 1
    else LastIndex(s[..|s| - 1], c)
  }

  /** What follows the last slash. */
  function Base(path: string): string {
    path[LastIndex(path, '/') + 1..]
  }

  /** How many digits `s` starts with. */
  function DigitRun(s: string): (n: nat)
    ensures n <= |s| && AllDigits(s[..n]) && (n < |s| ==> !IsDigit(s[n]))
  {
    if s == "" || !IsDigit(s[0]) then 0
    else
      var n := DigitRun(s[1..]);
      assert s[..n + 1] == [s[0]] + s[1..][..n];
      n + 1
  }

  function Encode(collectionName: string, docID: string): string {
    Text.Trim(collectionName) + "_" + Text.Trim(docID)
  }

  /** The collection ends at the last underscore, the document ID with the digits behind it. */
  function ParseBase(base: string): Option<FileSource> {
    var u := LastIndex(base, '_');
    if u <= 0 || '\n' in base[..u] then None
    else
      var rest := base[u + 1..];
      var n := DigitRun(rest);
      if n == 0 || !IsExtension(rest[n..]) then None else Some(FileSource(base[..u], rest[..n]))
  }

  function Parse(path: string): Option<FileSource> {
    if Text.IsBlank(path) then None else ParseBase(Base(path))
  }

  // ----- Parsing answers the pattern's groups -----

  lemma {:induction false} ExtensionCharacters(s: string)
    requires IsExtension(s)
    ensures forall i :: 0 <= i < |s| ==> s[i] == '.' || IsAlphanumeric(s[i])
    ensures s != "" ==> s[0] == '.'
    decreases |s|
  {
    if s != "" {
      var k :| 1 < k <= |s| && s[0] == '.' && AllAlphanumeric(s[1..k]) && IsExtension(s[k..]);
      ExtensionCharacters(s[k..]);
      forall i | 0 <= i < |s| ensures s[i] == '.' || IsAlphanumeric(s[i]) {
        if 0 < i < k { assert s[1..k][i - 1] == s[i]; }
        if i >= k { assert s[k..][i - k] == s[i]; }
      }
    }
  }

  lemma {:induction false} DigitRunOf(d: string, e: string)
    requires AllDigits(d) && (e != "" ==> !IsDigit(e[0]))
    ensures DigitRun(d + e) == |d|
  {
    if d != "" {
      assert (d + e)[1..] == d[1..] + e;
      DigitRunOf(d[1..], e);
    } else {
      assert d + e == e;
    }
  }

  lemma NoneBehind(front: string, c: char, rest: string, j: nat)
    requires c !in rest && |front| < j <= |front| + |rest|
    ensures (front + [c] + rest)[j] != c
  {
    assert (front + [c] + rest)[j] == rest[j - |front| - 1];
  }

  lemma {:induction false} LastIsThere(s: string, c: char, k: nat)
    requires k < |s| && s[k] == c && forall j :: k < j < |s| ==> s[j] != c
    ensures LastIndex(s, c) == k
  {
    hide LastIndex;
  }

  lemma Around(front: string, c: char, rest: string)
    ensures |front + [c] + rest| == |front| + 1 + |rest| && (front + [c] + rest)[|front|] == c
    ensures (front + [c] + rest)[..|front|] == front && (front + [c] + rest)[|front| + 1..] == rest
  {
  }

  lemma {:induction false} LastIndexOf(front: string, c: char, rest: string)
    requires c !in rest
    ensures LastIndex(front + [c] + rest, c) == |front|
    ensures (front + [c] + rest)[..|front|] == front && (front + [c] + rest)[|front| + 1..] == rest
  {
    hide LastIndex;
    Around(front, c, rest);
    var s := front + [c] + rest;
    forall j | |front| < j < |s| ensures s[j] != c {
      NoneBehind(front, c, rest, j);
    }
    LastIsThere(s, c, |front|);
  }

  lemma Divided(a: string, b: string)
    ensures (a + b)[..|a|] == a && (a + b)[|a|..] == b
  {
  }

  lemma NoUnderscore(d: string, e: string)
    requires AllDigits(d) && forall i :: 0 <= i < |e| ==> e[i] == '.' || IsAlphanumeric(e[i])
    ensures '_' !in d + e
  {
  }

  lemma Regrouped(c: string, d: string, e: string)
    ensures c + "_" + d + e == c + ['_'] + (d + e)
  {
    assert "_" == ['_'];
  }

  lemma ExtensionIsNoDigit(e: string)
    requires IsExtension(e)
    ensures e != "" ==> !IsDigit(e[0])
  {
    ExtensionCharacters(e);
  }

  lemma {:induction false} ParsesTo(base: string, c: string, d: string, e: string)
    requires c != "" && d != "" && '\n' !in c && IsExtension(e)
    requires LastIndex(base, '_') == |c| && base[..|c|] == c && base[|c| + 1..] == d + e
    requires DigitRun(d + e) == |d| && (d + e)[..|d|] == d && (d + e)[|d|..] == e
    ensures ParseBase(base) == Some(FileSource(c, d))
  {
    hide IsExtension, LastIndex, DigitRun;
  }

  /** The underscore of a match is the last one, and its digits are all that stand there. */
  lemma {:induction false} MatchParses(base: string, c: string, d: string, e: string)
    requires Matches(base, c, d, e)
    ensures ParseBase(base) == Some(FileSource(c, d))
  {
    hide IsExtension, AllDigits, LastIndex, DigitRun, ParseBase;
    ExtensionIsNoDigit(e);
    DigitRunOf(d, e);
    Divided(d, e);
    ExtensionCharacters(e);
    NoUnderscore(d, e);
    LastIndexOf(c, '_', d + e);
    Regrouped(c, d, e);
    ParsesTo(base, c, d, e);
  }

  lemma {:induction false} ParseMatches(base: string, c: string, d: string)
    requires ParseBase(base) == Some(FileSource(c, d))
    ensures Matches(base, c, d, base[|c| + 1..][|d|..])
  {
    hide IsExtension, LastIndex, DigitRun;
    var rest := base[|c| + 1..];
    assert base == c + "_" + rest;
    assert rest == d + rest[|d|..];
    assert c + "_" + rest == c + "_" + d + rest[|d|..];
  }

  /** A path parses to these names exactly when its last component matches the pattern with them. */
  lemma {:induction false} ParseIffMatches(path: string, c: string, d: string)
    ensures Parse(path) == Some(FileSource(c, d)) <==> exists e :: Matches(Base(path), c, d, e)
  {
    hide IsExtension, AllDigits, ParseBase, Base;
    if Parse(path) == Some(FileSource(c, d)) {
      ParseMatches(Base(path), c, d);
    }
    forall e | Matches(Base(path), c, d, e) ensures Parse(path) == Some(FileSource(c, d)) {
      MatchParses(Base(path), c, d, e);
      MatchNotBlank(path, c, d, e);
    }
  }

  lemma {:induction false} MatchNotBlank(path: string, c: string, d: string, e: string)
    requires Matches(Base(path), c, d, e)
    ensures !Text.IsBlank(path)
  {
    hide IsExtension;
    assert Base(path)[|c| + 1] == d[0];
    NotBlank(path, d[0]);
  }

  lemma NotBlank(path: string, x: char)
    requires IsDigit(x) && x in path
    ensures !Text.IsBlank(path)
  {
    var i :| 0 <= i < |path| && path[i] == x;
    assert path == path[..i] + [x] + path[i + 1..];
    Text.TrimLeftConcat(path[..i], x, path[i + 1..]);
    Text.TrimRightConcat(Text.TrimLeft(path[..i]), x, path[i + 1..]);
  }

  // ----- Round trip -----

  lemma BaseOfJoined(dir: string, name: string)
    requires (dir == "" || dir[|dir| - 1] == '/') && '/' !in name
    ensures Base(dir + name) == name
  {
    var path := dir + name;
    var i := LastIndex(path, '/');
    assert forall k :: |dir| <= k < |path| ==> path[k] == name[k - |dir|];
    assert dir != "" ==> path[|dir| - 1] == '/';
    assert i == |dir| - 1;
  }

  /** The names that survive being encoded. */
  predicate Encodable(collectionName: string, docID: string) {
    var c, d := Text.Trim(collectionName), Text.Trim(docID);
    c != "" && '\n' !in c && '/' !in c && d != "" && forall i :: 0 <= i < |d| ==> '0' <= d[i] <= '9'
  }

  lemma NameHasNoSlash(c: string, d: string, e: string)
    requires '/' !in c && AllDigits(d) && IsExtension(e)
    ensures '/' !in c + "_" + d + e
  {
    ExtensionCharacters(e);
    forall k | 0 <= k < |d| ensures d[k] != '/' { assert IsDigit(d[k]); }
  }

  /** The names are found again below any directory and behind any file extension. */
  lemma {:induction false} RoundTrip(dir: string, collectionName: string, docID: string, extension: string)
    requires Encodable(collectionName, docID) && IsExtension(extension)
    requires dir == "" || dir[|dir| - 1] == '/'
    ensures Parse(dir + Encode(collectionName, docID) + extension) ==
            Some(FileSource(Text.Trim(collectionName), Text.Trim(docID)))
  {
    hide IsExtension, Text.Trim, ParseBase, Base;
    var c, d := Text.Trim(collectionName), Text.Trim(docID);
    var name := c + "_" + d + extension;
    NameHasNoSlash(c, d, extension);
    BaseOfJoined(dir, name);
    assert dir + Encode(collectionName, docID) + extension == dir + name;
    assert Matches(Base(dir + name), c, d, extension);
    ParseIffMatches(dir + name, c, d);
  }

  lemma {:induction false} RoundTripNeedsEncodable(collectionName: string, docID: string)
    requires Parse(Encode(collectionName, docID)) == Some(FileSource(Text.Trim(collectionName), Text.Trim(docID)))
    ensures Encodable(collectionName, docID)
  {
    hide IsExtension, Text.Trim, ParseBase, Parse;
    var c, d := Text.Trim(collectionName), Text.Trim(docID);
    var path := Encode(collectionName, docID);
    ParseIffMatches(path, c, d);
    var e :| Matches(Base(path), c, d, e);
    assert Base(path)[..|c|] == c;
    forall k | 0 <= k < |c| ensures c[k] != '/' { assert Base(path)[k] == c[k]; }
  }

  /** Encoding and parsing gives the trimmed names back exactly for the encodable ones. */
  lemma {:induction false} RoundTripIff(collectionName: string, docID: string)
    ensures Parse(Encode(collectionName, docID)) == Some(FileSource(Text.Trim(collectionName), Text.Trim(docID))) <==>
            Encodable(collectionName, docID)
  {
    hide *;
    var path := Encode(collectionName, docID);
    if Encodable(collectionName, docID) {
      NoExtension();
      RoundTrip("", collectionName, docID, "");
      assert "" + path + "" == path;
    }
    if Parse(path) == Some(FileSource(Text.Trim(collectionName), Text.Trim(docID))) {
      RoundTripNeedsEncodable(collectionName, docID);
    }
  }

  lemma NoExtension()
    ensures IsExtension("")
  {
  }

  /** A word behind a dot extends an extension exactly if it is of letters and digits and not empty. */
  lemma ExtensionIff(word: string, rest: string)
    requires '.' !in word && (rest == "" || rest[0] == '.')
    ensures IsExtension("")
    ensures IsExtension(['.'] + word + rest) <==>
              && word != "" && IsExtension(rest)
              && forall i :: 0 <= i < |word| ==>
                   '0' <= word[i] <= '9' || 'A' <= word[i] <= 'Z' || 'a' <= word[i] <= 'z'
  {
    var s := ['.'] + word + rest;
    assert s[1..|word| + 1] == word && s[|word| + 1..] == rest;
    if IsExtension(s) {
      var k :| 1 < k <= |s| && s[0] == '.' && AllAlphanumeric(s[1..k]) && IsExtension(s[k..]);
      ExtensionCharacters(s[k..]);
      WordEnds(word, rest, k);
    }
  }

  lemma WordEnds(word: string, rest: string, k: nat)
    requires '.' !in word && (rest == "" || rest[0] == '.')
    requires var s := ['.'] + word + rest; 1 < k <= |s| && AllAlphanumeric(s[1..k]) && (k < |s| ==> s[k] == '.')
    ensures k == |word| + 1
  {
    var s := ['.'] + word + rest;
    assert forall i :: 1 <= i <= |word| ==> s[i] == word[i - 1];
    assert forall i :: |word| < i < |s| ==> s[i] == rest[i - |word| - 1];
    assert forall i :: 0 <= i < |s[1..k]| ==> s[1..k][i] == s[i + 1] && IsAlphanumeric(s[i + 1]);
    assert forall i :: 1 <= i < k ==> s[i] == s[(i - 1) + 1] && IsAlphanumeric(s[i]);
    assert rest != "" ==> s[|word| + 1] == '.';
  }

  /** Different encodable names never share an encoding. */
  lemma EncodeIsInjective(c1: string, d1: string, c2: string, d2: string)
    requires Encodable(c1, d1) && Encodable(c2, d2) && Encode(c1, d1) == Encode(c2, d2)
    ensures Text.Trim(c1) == Text.Trim(c2) && Text.Trim(d1) == Text.Trim(d2)
  {
    RoundTripIff(c1, d1);
    RoundTripIff(c2, d2);
  }
}
