/**
 * Derivation of the content key of an uploaded image (backend/server.py,
 * `generate_image_hash`, and the analysis id built from it in
 * `analyze_hairstyle`).
 *
 * An upload arrives as text: either a bare base64 payload or a data URI such
 * as "data:image/jpeg;base64,<payload>". When the marker "base64," occurs,
 * the payload is `s.split('base64,')[1]`; it is then base64-decoded and the
 * bytes are hashed with SHA-256. Decoding and hashing are library calls;
 * they are parameters of the functions below. Every property here holds
 * for any decoder and digest, except the id length, which assumes that the
 * digest has 64 hex digits.
 */
module ImageKey {
  import opened Wrappers
  import opened Text

  type Byte = bv8

  /** The separator between a data-URI header and its payload. */
  const Marker: string := "base64,"

  /** Prefix of every analysis id. */
  const AnalysisPrefix: string := "hairstyle_"

  /** Number of hex characters of the digest kept in an analysis id. */
  const AnalysisDigits: nat := 32

  /**
   * `if 'base64,' in s: s = s.split('base64,')[1]`: the text after the first
   * marker and before the next one, or `s` when there is no marker.
   */
  function StripDataUri(s: string): (r: string)
    ensures !Contains(r, Marker)
    ensures !Contains(s, Marker) ==> r == s
  {
    if Contains(s, Marker) then Split(s, Marker)[1] else s
  }

  /**
   * Which text stripping keeps: `s` is the text before the first marker,
   * the marker, the stripped payload, and — when a second marker follows —
   * that marker and everything after it.
   */
  lemma StripKeepsSecondSegment(s: string)
    requires Contains(s, Marker)
    ensures var parts := Split(s, Marker);
            && !Contains(parts[0], Marker)
            && s == parts[0] + Marker + StripDataUri(s)
                    + (if |parts| > 2 then Marker + Join(parts[2..], Marker) else "")
  {
    var parts := Split(s, Marker);
    assert StripDataUri(s) == parts[1];
    JoinSplit(s, Marker);
    JoinFirstTwo(parts, Marker);
  }

  /** Stripping is idempotent. */
  lemma StripIdempotent(s: string)
    ensures StripDataUri(StripDataUri(s)) == StripDataUri(s)
  {
  }

  /** "<prefix>base64,<payload>" strips to the payload. */
  lemma StripPrefixed(prefix: string, payload: string)
    requires !Contains(prefix, Marker) && !Contains(payload, Marker)
    ensures StripDataUri(prefix + Marker + payload) == payload
  {
    var parts := [prefix, payload];
    assert Join(parts, Marker) == prefix + Marker + payload by {
      assert parts[1..] == [payload];
    }
    SplitJoin(parts, Marker);
  }

  /** A data URI of the shape the browser sends strips to its payload. */
  lemma StripJpegDataUri(payload: string)
    requires !Contains(payload, Marker)
    ensures StripDataUri("data:image/jpeg;" + Marker + payload) == payload
  {
    NotContainsWithoutFirst("data:image/jpeg;", Marker);
    StripPrefixed("data:image/jpeg;", payload);
  }

  /**
   * `generate_image_hash`: the digest of the decoded payload, or `None` when
   * decoding fails (Python raises there).
   */
  function ImageHash(imageData: string, base64Decode: string -> Option<seq<Byte>>,
                     sha256Hex: seq<Byte> -> string): (r: Option<string>)
    ensures r.None? <==> base64Decode(StripDataUri(imageData)).None?
    ensures r.Some? ==> r.value == sha256Hex(base64Decode(StripDataUri(imageData)).value)
  {
    match base64Decode(StripDataUri(imageData))
    case None => None
    case Some(bytes) => Some(sha256Hex(bytes))
  }

  /** The hash depends only on the stripped payload. */
  lemma HashDependsOnlyOnPayload(a: string, b: string, base64Decode: string -> Option<seq<Byte>>,
                                 sha256Hex: seq<Byte> -> string)
    requires StripDataUri(a) == StripDataUri(b)
    ensures ImageHash(a, base64Decode, sha256Hex) == ImageHash(b, base64Decode, sha256Hex)
  {
  }

  /** A data-URI upload hashes the same as its bare payload. */
  lemma PrefixedHashesAsPayload(prefix: string, payload: string,
                                base64Decode: string -> Option<seq<Byte>>,
                                sha256Hex: seq<Byte> -> string)
    requires !Contains(prefix, Marker) && !Contains(payload, Marker)
    ensures ImageHash(prefix + Marker + payload, base64Decode, sha256Hex)
            == ImageHash(payload, base64Decode, sha256Hex)
  {
    StripPrefixed(prefix, payload);
  }

  /** Python's `h[:n]`: at most the first `n` characters. */
  function Take(h: string, n: nat): (r: string)
    ensures |r| == if |h| < n then |h| else n
    ensures r <= h
  {
    if |h| < n then h else h[..n]
  }

  /** The `analysis_id` of `analyze_hairstyle`: "hairstyle_" and the first 32 hex digits. */
  function AnalysisId(faceData: string, base64Decode: string -> Option<seq<Byte>>,
                      sha256Hex: seq<Byte> -> string): (r: Option<string>)
    ensures r.None? <==> ImageHash(faceData, base64Decode, sha256Hex).None?
    ensures r.Some? ==> AnalysisPrefix <= r.value
    ensures r.Some? ==> r.value[|AnalysisPrefix|..] <= ImageHash(faceData, base64Decode, sha256Hex).value
  {
    match ImageHash(faceData, base64Decode, sha256Hex)
    case None => None
    case Some(h) => Some(AnalysisPrefix + Take(h, AnalysisDigits))
  }

  /** With a 64-digit SHA-256 hex digest the id is 42 characters long. */
  lemma AnalysisIdLength(faceData: string, base64Decode: string -> Option<seq<Byte>>,
                         sha256Hex: seq<Byte> -> string)
    requires forall b :: |sha256Hex(b)| == 64
    requires base64Decode(StripDataUri(faceData)).Some?
    ensures AnalysisId(faceData, base64Decode, sha256Hex).Some?
    ensures |AnalysisId(faceData, base64Decode, sha256Hex).value| == |AnalysisPrefix| + AnalysisDigits
  {
  }
}
