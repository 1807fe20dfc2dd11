/** `saveUploadedFile` (server/upload.ts): the stored name is 16 random bytes
    in lower-case hex, a dot, and the last `.`-separated segment of the
    client's file name; the reference handed back is `/uploads/<name>`. */
module Upload {
  import opened Common

  const RandomByteCount: nat := 16
  const UploadPrefix: string := "/uploads/"

  /** The output of `randomBytes(16)`. */
  type RandomBytes = b: seq<byte> | |b| == RandomByteCount
    witness seq(RandomByteCount, _ => 0)

  // ------------------------------------------------------- String.split('.')

  /** JavaScript's `s.split(sep)` for a one-character separator: the pieces
      between separators, including empty ones at either end. */
  function Split(s: string, sep: char): (parts: seq<string>)
    ensures |parts| == Count(s, sep) + 1
    ensures forall i :: 0 <= i < |parts| ==> sep !in parts[i]
  {
    if |s| == 0 then [""]
    else
      var rest := Split(s[1..], sep);
      if s[0] == sep then [""] + rest
      else [[s[0]] + rest[0]] + rest[1..]
  }

  /** `parts.join(sep)`, the inverse of Split. */
  function Join(parts: seq<string>, sep: char): string
    requires |parts| >= 1
  {
    if |parts| == 1 then parts[0]
    else parts[0] + [sep] + Join(parts[1..], sep)
  }

  lemma {:induction false} SplitJoin(s: string, sep: char)
    ensures Join(Split(s, sep), sep) == s
  {
    if |s| > 0 {
      var rest := Split(s[1..], sep);
      SplitJoin(s[1..], sep);
      if s[0] == sep {
        assert Split(s, sep)[1..] == rest;
        assert s == [sep] + s[1..];
        if |rest| == 1 {
          assert Join(Split(s, sep), sep) == "" + [sep] + rest[0];
        }
      } else {
        var parts := Split(s, sep);
        assert parts[1..] == rest[1..];
        if |rest| == 1 {
          assert parts == [[s[0]] + rest[0]];
        } else {
          assert Join(rest, sep) == rest[0] + [sep] + Join(rest[1..], sep);
        }
      }
    }
  }

  /** Splitting a join of separator-free pieces gives the pieces back. */
  lemma {:induction false} JoinSplit(parts: seq<string>, sep: char)
    requires |parts| >= 1
    requires forall i :: 0 <= i < |parts| ==> sep !in parts[i]
    ensures Split(Join(parts, sep), sep) == parts
  {
    if |parts| == 1 {
      SplitNoSeparator(parts[0], sep);
    } else {
      JoinSplit(parts[1..], sep);
      SplitPrefix(parts[0], [sep] + Join(parts[1..], sep), sep);
      assert ([sep] + Join(parts[1..], sep))[1..] == Join(parts[1..], sep);
      assert parts[0] + [sep] + Join(parts[1..], sep) == parts[0] + ([sep] + Join(parts[1..], sep));
    }
  }

  lemma {:induction false} SplitNoSeparator(s: string, sep: char)
    requires sep !in s
    ensures Split(s, sep) == [s]
  {
    if |s| > 0 {
      SplitNoSeparator(s[1..], sep);
      assert s == [s[0]] + s[1..];
    }
  }

  /** A separator-free head glues onto the first piece of what follows. */
  lemma {:induction false} SplitPrefix(a: string, b: string, sep: char)
    requires sep !in a && |b| > 0 && b[0] == sep
    ensures Split(a + b, sep) == [a] + Split(b[1..], sep)
  {
    if |a| == 0 {
      assert a + b == b;
    } else {
      assert (a + b)[1..] == a[1..] + b;
      SplitPrefix(a[1..], b, sep);
      assert [a[0]] + a[1..] == a;
    }
  }

  // --------------------------------------------------------------- extension

  function Last(parts: seq<string>): string
    requires |parts| >= 1
  {
    parts[|parts| - 1]
  }

  /** `file.originalname.split('.').pop()`: a dot-free tail of the name. */
  function Extension(originalname: string): (ext: string)
    ensures '.' !in ext
    ensures |ext| <= |originalname| && originalname[|originalname| - |ext|..] == ext
  {
    var parts := Split(originalname, '.');
    SplitJoin(originalname, '.');
    if |parts| >= 2 then
      JoinLast(parts, '.');
      Last(parts)
    else
      Last(parts)
  }

  lemma {:induction false} JoinLast(parts: seq<string>, sep: char)
    requires |parts| >= 2
    ensures Join(parts, sep) == Join(parts[..|parts| - 1], sep) + [sep] + Last(parts)
  {
    if |parts| > 2 {
      JoinLast(parts[1..], sep);
      assert parts[1..][..|parts| - 2] == parts[..|parts| - 1][1..];
    }
  }

  /** The extension is exactly the text after the last `.`: it holds no `.`,
      it is the whole name when the name has no `.`, and otherwise the name
      is some prefix, a `.`, and the extension. */
  lemma ExtensionIsTextAfterLastDot(originalname: string)
    ensures '.' !in Extension(originalname)
    ensures '.' !in originalname ==> Extension(originalname) == originalname
    ensures '.' in originalname ==>
      var ext := Extension(originalname);
      |ext| < |originalname| &&
      originalname == originalname[..|originalname| - |ext| - 1] + "." + ext
  {
    var parts := Split(originalname, '.');
    if '.' !in originalname {
      SplitNoSeparator(originalname, '.');
    } else {
      SplitJoin(originalname, '.');
      JoinLast(parts, '.');
      var prefix := Join(parts[..|parts| - 1], '.');
      assert originalname == prefix + "." + Extension(originalname);
      assert originalname[..|originalname| - |Extension(originalname)| - 1] == prefix;
    }
  }

  /** A name ending in `.` has an empty extension. */
  lemma TrailingDotGivesEmptyExtension(stem: string)
    ensures Extension(stem + ".") == ""
  {
    SplitTrailingSeparator(stem, '.');
  }

  lemma {:induction false} SplitTrailingSeparator(s: string, sep: char)
    ensures Split(s + [sep], sep) == Split(s, sep) + [""]
  {
    if |s| > 0 {
      assert (s + [sep])[1..] == s[1..] + [sep];
      SplitTrailingSeparator(s[1..], sep);
    }
  }

  // --------------------------------------------------------------------- hex

  /** A lower-case hexadecimal digit. */
  predicate IsHexDigit(c: char)
  {
    '0' <= c <= '9' || 'a' <= c <= 'f'
  }

  function HexDigit(n: int): (c: char)
    requires 0 <= n < 16
    ensures IsHexDigit(c)
  {
    if n < 10 then ('0' as int + n) as char else ('a' as int + n - 10) as char
  }

  /** `buffer.toString('hex')`: two lower-case digits per byte, high nibble first. */
  function ToHex(bytes: seq<byte>): (h: string)
    ensures |h| == 2 * |bytes|
    ensures forall i :: 0 <= i < |h| ==> IsHexDigit(h[i])
  {
    if |bytes| == 0 then ""
    else [HexDigit(bytes[0] as int / 16), HexDigit(bytes[0] as int % 16)] + ToHex(bytes[1..])
  }

  function HexValue(c: char): (n: nat)
    requires IsHexDigit(c)
    ensures n < 16 && HexDigit(n) == c
  {
    if '0' <= c <= '9' then (c - '0') as nat else (c - 'a') as nat + 10
  }

  /** Decodes lower-case hex back to bytes. */
  function FromHex(h: string): seq<byte>
    requires |h| % 2 == 0
    requires forall i :: 0 <= i < |h| ==> IsHexDigit(h[i])
  {
    if |h| == 0 then []
    else [(HexValue(h[0]) * 16 + HexValue(h[1])) as byte] + FromHex(h[2..])
  }

  lemma ByteFromNibbles(b: byte)
    ensures HexValue(HexDigit(b as int / 16)) * 16 + HexValue(HexDigit(b as int % 16)) == b as int
  {
  }

  lemma {:induction false} HexRoundTrip(bytes: seq<byte>)
    ensures FromHex(ToHex(bytes)) == bytes
  {
    if |bytes| > 0 {
      var h := ToHex(bytes);
      assert h[2..] == ToHex(bytes[1..]);
      ByteFromNibbles(bytes[0]);
      HexRoundTrip(bytes[1..]);
    }
  }

  // ----------------------------------------------------- name and reference

  /** The stored file name `${hex}.${ext}`: the first 32 characters decode
      back to the random bytes, then a `.`, then a tail of the client's name
      holding no `.`. */
  function FileName(random: RandomBytes, originalname: string): (name: string)
    ensures |name| >= 33
    ensures (forall i :: 0 <= i < 32 ==> IsHexDigit(name[i])) && FromHex(name[..32]) == random
    ensures name[32] == '.' && '.' !in name[33..]
    ensures |name| - 33 <= |originalname| && originalname[|originalname| - (|name| - 33)..] == name[33..]
  {
    var name := ToHex(random) + "." + Extension(originalname);
    HexRoundTrip(random);
    assert name[..32] == ToHex(random);
    assert name[33..] == Extension(originalname);
    name
  }

  function ReferenceOf(fileName: string): string
  {
    UploadPrefix + fileName
  }

  /** The generated name: 32 lower-case hex digits, then exactly one `.`. */
  lemma FileNameShape(random: RandomBytes, originalname: string)
    ensures var name := FileName(random, originalname);
      && |name| == 33 + |Extension(originalname)|
      && (forall i :: 0 <= i < 32 ==> IsHexDigit(name[i]))
      && name[32] == '.'
      && Count(name, '.') == 1
  {
    var hex := ToHex(random);
    var ext := Extension(originalname);
    ExtensionIsTextAfterLastDot(originalname);
    CountAppend(hex, ".", '.');
    CountAppend(hex + ".", ext, '.');
    assert Count(".", '.') == 1;
  }

  /** Reads a reference back into its hex part and its extension. */
  function ParseReference(reference: string): Option<(string, string)>
  {
    var n := |UploadPrefix|;
    if |reference| >= n + 33 && reference[..n] == UploadPrefix && reference[n + 32] == '.'
    then Some((reference[n..n + 32], reference[n + 33..]))
    else None
  }

  /** The reference names the random hex and the extension, and nothing else
      of the client's file name. */
  lemma ReferenceRoundTrip(random: RandomBytes, originalname: string)
    ensures ParseReference(ReferenceOf(FileName(random, originalname)))
      == Some((ToHex(random), Extension(originalname)))
  {
    var r := ReferenceOf(FileName(random, originalname));
    var n := |UploadPrefix|;
    assert r == UploadPrefix + ToHex(random) + "." + Extension(originalname);
    assert r[..n] == UploadPrefix;
    assert r[n..n + 32] == ToHex(random);
    assert r[n + 33..] == Extension(originalname);
  }

  /** Two client names yield the same reference (for the same random bytes)
      exactly when their extensions agree. */
  lemma ReferenceDependsOnlyOnExtension(random: RandomBytes, a: string, b: string)
    ensures ReferenceOf(FileName(random, a)) == ReferenceOf(FileName(random, b))
      <==> Extension(a) == Extension(b)
  {
    if ReferenceOf(FileName(random, a)) == ReferenceOf(FileName(random, b)) {
      ReferenceRoundTrip(random, a);
      ReferenceRoundTrip(random, b);
    }
  }

  // ------------------------------------------------------------------- save

  datatype SaveResult = Saved(reference: string, uploads: map<string, seq<byte>>) | WriteFailed

  /** Writes the buffer under the generated name. `writeSucceeds` is the
      stream's verdict: `finish` resolves, `error` rejects. */
  function SaveUploadedFile(
    uploads: map<string, seq<byte>>, originalname: string, buffer: seq<byte>,
    random: RandomBytes, writeSucceeds: bool): (r: SaveResult)
    ensures r.WriteFailed? <==> !writeSucceeds
    ensures r.Saved? ==>
      var name := FileName(random, originalname);
      && r.reference == UploadPrefix + name
      && r.uploads == uploads[name := buffer]
      && name[32] == '.' && Count(name, '.') == 1
      && r.reference[|UploadPrefix|..|UploadPrefix| + 32] == ToHex(random)
      && '.' !in r.reference[|UploadPrefix| + 33..]
  {
    var name := FileName(random, originalname);
    if writeSucceeds then
      FileNameShape(random, originalname);
      ExtensionIsTextAfterLastDot(originalname);
      ReferenceRoundTrip(random, originalname);
      Saved(ReferenceOf(name), uploads[name := buffer])
    else WriteFailed
  }
}
