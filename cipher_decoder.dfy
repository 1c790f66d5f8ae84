/** `DecryptGPP` of CachedGPPPassword.cs: repair the padding that Group
    Policy strips from the base64 text, decode it, decrypt it under the
    published AES-256 key with an all-zero IV, and read the plaintext as
    UTF-16LE. Base64, AES-CBC and UTF-16 come from .NET and are taken as
    parameters here; only the padding repair and the constants are modelled. */
module CipherDecoder {
  import opened Outcomes

  newtype byte = x: int | 0 <= x < 256

  /** The 32-byte AES key Microsoft published for Group Policy Preferences. */
  const GppKey: seq<byte> := [
    0x4e, 0x99, 0x06, 0xe8, 0xfc, 0xb6, 0x6c, 0xc9, 0xfa, 0xf4, 0x93, 0x10, 0x62, 0x0f, 0xfe, 0xe8,
    0xf4, 0x96, 0xe8, 0x06, 0xcc, 0x05, 0x79, 0x90, 0x20, 0x9b, 0x09, 0xa4, 0x33, 0xb6, 0x6c, 0x1b
  ]

  /** AES has a 16-byte block, so `aesObject.IV.Length` is 16. */
  const AesBlockSize: nat := 16

  /** The IV: a fresh byte array of the IV's length, hence all zero. */
  const ZeroIv: seq<byte> := seq(AesBlockSize, _ => 0 as byte)

  /** The library routines `DecryptGPP` calls. A `None` is the exception
      the routine throws. */
  datatype CryptoLib = CryptoLib(
    fromBase64: string -> Option<seq<byte>>,                         // Convert.FromBase64String
    aesCbcDecrypt: (seq<byte>, seq<byte>, seq<byte>) -> Option<seq<byte>>, // key, IV, ciphertext
    utf16Decode: seq<byte> -> string                                 // Encoding.Unicode.GetString
  )

  /** The `switch` on `Length % 4`: remainder 1 drops the last character,
      remainders 2 and 3 append `=` until the length is a multiple of 4,
      remainder 0 leaves the text alone. */
  function FixPadding(s: string): (r: string)
    ensures |r| % 4 == 0
    ensures |s| % 4 == 0 ==> r == s
    ensures |s| % 4 == 1 ==> r == s[..|s| - 1]
    ensures |s| % 4 >= 2 ==> |r| == |s| + 4 - |s| % 4 && r[..|s|] == s
    ensures |s| % 4 >= 2 ==> forall i :: |s| <= i < |r| ==> r[i] == '='
  {
    match |s| % 4
    case 1 => s[..|s| - 1]
    case 2 => s + "=="
    case 3 => s + "="
    case _ => s
  }

  /** Repairing a repaired string changes nothing. */
  lemma FixPaddingIdempotent(s: string)
    ensures FixPadding(FixPadding(s)) == FixPadding(s)
  {
  }

  /** The repair undoes the stripping of standard base64 padding: a padded
      text `t` (length a multiple of 4, ending in `n` <= 2 `=`), with its
      `=` removed, is repaired back to `t`. */
  lemma {:induction false} FixPaddingRestoresPadding(t: string, n: nat)
    requires |t| % 4 == 0 && n <= 2 && n <= |t|
    requires forall i :: |t| - n <= i < |t| ==> t[i] == '='
    ensures FixPadding(t[..|t| - n]) == t
  {
    var u := t[..|t| - n];
    var r := FixPadding(u);
    if n == 0 {
      assert u == t;
    } else {
      assert |u| % 4 == 4 - n;
      assert |r| == |t|;
      forall i | 0 <= i < |t|
        ensures r[i] == t[i]
      {
        if i < |u| {
          assert r[i] == r[..|u|][i] == u[i];
        }
      }
    }
  }

  /** `DecryptGPP(cpassword)`: repair, decode, decrypt under the fixed key
      and IV, then read UTF-16LE. */
  function DecryptGpp(cpassword: string, lib: CryptoLib): (r: Result<string>)
    ensures r.Err? ==> r.fault == Base64Failure || r.fault == CryptoFailure
    ensures r == Err(Base64Failure) <==> lib.fromBase64(FixPadding(cpassword)).None?
    ensures r == Err(CryptoFailure) <==>
      exists b :: lib.fromBase64(FixPadding(cpassword)) == Some(b)
        && lib.aesCbcDecrypt(GppKey, ZeroIv, b).None?
    ensures r.Ok? ==>
      exists b, p :: lib.fromBase64(FixPadding(cpassword)) == Some(b)
        && lib.aesCbcDecrypt(GppKey, ZeroIv, b) == Some(p) && r.value == lib.utf16Decode(p)
  {
    match lib.fromBase64(FixPadding(cpassword))
    case None => Err(Base64Failure)
    case Some(cipherBytes) =>
      match lib.aesCbcDecrypt(GppKey, ZeroIv, cipherBytes)
      case None => Err(CryptoFailure)
      case Some(plainBytes) => Ok(lib.utf16Decode(plainBytes))
  }

  /** The decryption sees the field only through its repaired form: two
      fields with the same repair decrypt alike, and in particular a field
      and its own repair do. */
  lemma {:induction false} DecryptGppSeesRepairOnly(s: string, t: string, lib: CryptoLib)
    requires FixPadding(s) == FixPadding(t)
    ensures DecryptGpp(s, lib) == DecryptGpp(t, lib)
    ensures DecryptGpp(FixPadding(s), lib) == DecryptGpp(s, lib)
  {
    FixPaddingIdempotent(s);
  }

  /** Only the AES routine under the fixed key and IV matters: libraries
      that agree on the repaired text's decoding, on decryption under
      `GppKey` and `ZeroIv`, and on UTF-16 decoding decrypt alike. */
  lemma DecryptGppUsesFixedKeyAndIv(c: string, lib: CryptoLib, other: CryptoLib)
    requires lib.fromBase64(FixPadding(c)) == other.fromBase64(FixPadding(c))
    requires forall b :: lib.aesCbcDecrypt(GppKey, ZeroIv, b) == other.aesCbcDecrypt(GppKey, ZeroIv, b)
    requires forall p :: lib.utf16Decode(p) == other.utf16Decode(p)
    ensures DecryptGpp(c, lib) == DecryptGpp(c, other)
  {
  }

  lemma CipherConstants()
    ensures |GppKey| == 32 && |ZeroIv| == AesBlockSize == 16
    ensures forall i :: 0 <= i < |ZeroIv| ==> ZeroIv[i] == 0
  {
  }
}
