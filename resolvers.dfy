/**
 Storage paths for uploaded files and their thumbnails (`files_resolver` and
 `thumbs_resolver`). A path is a category prefix, the upload time in hundredths
 of a second, a two-digit random salt, a dot and the file type's extension.
 The clock reading and the random salt are parameters here.
 */
module Resolvers {
  import opened Records
  import opened Numerals

  const FilesPrefix: string := "section/"
  const ThumbsPrefix: string := "thumbs/"

  /** The parts a storage path is made of. */
  datatype UploadName = UploadName(timestamp: nat, salt: nat, extension: string)

  /** `prefix`, the timestamp and salt in decimal, a dot and the extension. */
  function UploadPath(prefix: string, timestamp: nat, salt: nat, extension: string): string {
    prefix + Decimal(timestamp) + Decimal(salt) + "." + extension
  }

  /** The index of the first '.' in `s`, or `|s|` when there is none. */
  function IndexOfDot(s: string): (k: nat)
    ensures k <= |s|
    ensures forall i :: 0 <= i < k ==> s[i] != '.'
    ensures k < |s| ==> s[k] == '.'
  {
    if s == [] || s[0] == '.' then 0 else 1 + IndexOfDot(s[1..])
  }

  /**
   Splits a path made by `UploadPath(prefix, ...)` back into its parts: the
   digits between the prefix and the first dot are the timestamp followed by
   the two salt digits, and everything after that dot is the extension. Both
   numbers must be written as `Decimal` writes them, with no leading zero, so
   the salt is one of 10..99.
   */
  function ParseUploadPath(prefix: string, path: string): Option<UploadName> {
    if !(prefix <= path) then None
    else
      var rest := path[|prefix|..];
      var k := IndexOfDot(rest);
      if k == |rest| || k < 3 then None
      else
        var ts, sa := rest[..k - 2], rest[k - 2..k];
        if !Canonical(ts) || !Canonical(sa) then None
        else Some(UploadName(ParseDigits(ts), ParseDigits(sa), rest[k + 1..]))
  }

  lemma DigitsHaveNoDot(s: string)
    requires AllDigits(s)
    ensures forall i :: 0 <= i < |s| ==> s[i] != '.'
  {
    forall i | 0 <= i < |s| ensures s[i] != '.' {
      assert IsDigit(s[i]);
    }
  }

  /** Every path the generator makes parses back into the parts it was made of. */
  lemma ParseUploadPathRoundTrip(prefix: string, timestamp: nat, salt: nat, extension: string)
    requires 10 <= salt <= 99
    ensures ParseUploadPath(prefix, UploadPath(prefix, timestamp, salt, extension))
         == Some(UploadName(timestamp, salt, extension))
  {
    var ts, sa := Decimal(timestamp), Decimal(salt);
    TwoDigits(salt);
    var path := UploadPath(prefix, timestamp, salt, extension);
    var stem := ts + sa;
    assert path == prefix + (stem + "." + extension);
    assert prefix <= path;
    var rest := path[|prefix|..];
    assert rest == stem + "." + extension;
    assert AllDigits(stem) by {
      forall i | 0 <= i < |stem| ensures IsDigit(stem[i]) {
        if i < |ts| { assert stem[i] == ts[i]; } else { assert stem[i] == sa[i - |ts|]; }
      }
    }
    DigitsHaveNoDot(stem);
    var k := IndexOfDot(rest);
    assert rest[|stem|] == '.';
    assert forall i :: 0 <= i < |stem| ==> rest[i] == stem[i];
    assert k == |stem|;
    assert rest[..k] == stem;
    assert stem[..k - 2] == ts && stem[k - 2..k] == sa;
    assert rest[..k - 2] == ts;
    assert k >= 3 && k < |rest|;
    assert rest[k - 2..k] == sa;
    assert rest[k + 1..] == extension;
    assert |rest| == |stem| + 1 + |extension|;
    ParseDecimal(timestamp);
    ParseDecimal(salt);
    assert ParseUploadPath(prefix, path)
        == Some(UploadName(ParseDigits(ts), ParseDigits(sa), extension));
  }

  /**
   Every path the parser accepts is the generator's path for the parts it
   returns, with a salt in 10..99: no other spelling of the same parts parses.
   */
  lemma ParseUploadPathSound(prefix: string, path: string)
    ensures ParseUploadPath(prefix, path).Some? ==>
      var n := ParseUploadPath(prefix, path).value;
      10 <= n.salt <= 99 && path == UploadPath(prefix, n.timestamp, n.salt, n.extension)
  {
    if ParseUploadPath(prefix, path).Some? {
      var n := ParseUploadPath(prefix, path).value;
      var rest := path[|prefix|..];
      var k := IndexOfDot(rest);
      var ts, sa := rest[..k - 2], rest[k - 2..k];
      DecimalOfParse(ts);
      DecimalOfParse(sa);
      assert n.timestamp == ParseDigits(ts) && n.salt == ParseDigits(sa);
      assert sa[..1] == [sa[0]];
      assert ParseDigits(sa) == DigitValue(sa[0]) * 10 + DigitValue(sa[1]) by {
        assert ParseDigits(sa[..1]) == ParseDigits([]) * 10 + DigitValue(sa[0]);
      }
      assert DigitValue(sa[0]) >= 1;
      assert rest == ts + sa + "." + rest[k + 1..];
      assert path == prefix + rest;
    }
  }

  /** `files_resolver`: the storage path of an attachment of type `fileType`. */
  function FilesResolver(fileType: FileType, timestamp: nat, salt: nat): (r: string)
    requires 10 <= salt <= 99
    ensures FilesPrefix <= r
    ensures |r| > |fileType.extension| && r[|r| - |fileType.extension| - 1..] == "." + fileType.extension
    ensures ParseUploadPath(FilesPrefix, r) == Some(UploadName(timestamp, salt, fileType.extension))
  {
    ParseUploadPathRoundTrip(FilesPrefix, timestamp, salt, fileType.extension);
    UploadPath(FilesPrefix, timestamp, salt, fileType.extension)
  }

  /** `thumbs_resolver`: the storage path of the thumbnail of an attachment of type `fileType`. */
  function ThumbsResolver(fileType: FileType, timestamp: nat, salt: nat): (r: string)
    requires 10 <= salt <= 99
    ensures ThumbsPrefix <= r
    ensures |r| > |fileType.extension| && r[|r| - |fileType.extension| - 1..] == "." + fileType.extension
    ensures ParseUploadPath(ThumbsPrefix, r) == Some(UploadName(timestamp, salt, fileType.extension))
  {
    ParseUploadPathRoundTrip(ThumbsPrefix, timestamp, salt, fileType.extension);
    UploadPath(ThumbsPrefix, timestamp, salt, fileType.extension)
  }

  /**
   Two attachment paths coincide exactly when they were made from the same
   hundredth of a second, the same salt and the same extension: the scheme
   never collides otherwise, and it does nothing to avoid that one case.
   */
  lemma FilesPathsCollideOnlyOnSameInputs(a: FileType, t1: nat, s1: nat, b: FileType, t2: nat, s2: nat)
    requires 10 <= s1 <= 99 && 10 <= s2 <= 99
    ensures FilesResolver(a, t1, s1) == FilesResolver(b, t2, s2)
        <==> t1 == t2 && s1 == s2 && a.extension == b.extension
  {
    var p, q := FilesResolver(a, t1, s1), FilesResolver(b, t2, s2);
    if p == q {
      assert ParseUploadPath(FilesPrefix, p) == ParseUploadPath(FilesPrefix, q);
    }
  }

  /** The same holds for thumbnail paths. */
  lemma ThumbsPathsCollideOnlyOnSameInputs(a: FileType, t1: nat, s1: nat, b: FileType, t2: nat, s2: nat)
    requires 10 <= s1 <= 99 && 10 <= s2 <= 99
    ensures ThumbsResolver(a, t1, s1) == ThumbsResolver(b, t2, s2)
        <==> t1 == t2 && s1 == s2 && a.extension == b.extension
  {
    var p, q := ThumbsResolver(a, t1, s1), ThumbsResolver(b, t2, s2);
    if p == q {
      assert ParseUploadPath(ThumbsPrefix, p) == ParseUploadPath(ThumbsPrefix, q);
    }
  }

  /** An attachment path is never a thumbnail path. */
  lemma FilesAndThumbsNeverCollide(a: FileType, t1: nat, s1: nat, b: FileType, t2: nat, s2: nat)
    requires 10 <= s1 <= 99 && 10 <= s2 <= 99
    ensures FilesResolver(a, t1, s1) != ThumbsResolver(b, t2, s2)
  {
    var p, q := FilesResolver(a, t1, s1), ThumbsResolver(b, t2, s2);
    assert p[0] == FilesPrefix[0] == 's';
    assert q[0] == ThumbsPrefix[0] == 't';
  }
}
