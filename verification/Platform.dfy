/** The standard library calls of the evidence code, as parameters with the laws it relies on. */
module Platform {
  import opened Results
  import opened Bytes
  import opened Text
  import opened Ordering

  const BYTE_ORDER_MARK: Unit := 0xfeff

  /** Begins with a byte order mark. */
  predicate Marked(t: Text) {
    t != [] && t[0] == BYTE_ORDER_MARK
  }

  predicate IsHexUnit(u: Unit) {
    '0' as int <= u <= '9' as int || 'a' as int <= u <= 'f' as int
  }

  /** 64 lower-case hexadecimal digits. */
  predicate IsDigest(t: Text) {
    |t| == 64 && forall i :: 0 <= i < 64 ==> IsHexUnit(t[i])
  }

  predicate IsTerminator(u: Unit) {
    u == 10 || u == 13 || u == 0x2028 || u == 0x2029
  }

  /** Holds a character that . in a regular expression does not match. */
  predicate HasTerminator(t: Text) {
    exists u :: u in t && IsTerminator(u)
  }

  /** No two of these byte strings collide. */
  ghost predicate InjectiveOn(sha256: Bytes -> Text, strings: set<Bytes>) {
    forall a, b :: a in strings && b in strings && sha256(a) == sha256(b) ==> a == b
  }

  datatype Platform = Platform(
    /** String.prototype.normalize('NFC') */
    normalize: Text -> Text,
    /** TextEncoder.encode */
    encode: Text -> Bytes,
    /** new TextDecoder('utf-8', { fatal: true }).decode; None where it throws */
    decode: Bytes -> Option<Text>,
    /** left.localeCompare(right, 'en') <= 0 */
    pathAtMost: (Text, Text) -> bool,
    /** sha256Hex */
    sha256: Bytes -> Text
  ) {
    /**
     * Normalising or encoding makes a text at most three times longer; normalising keeps ASCII text
     * and neither makes nor removes line terminators; the decoder returns no lone surrogate; UTF-8
     * loses lone surrogates and the decoder drops one leading byte order mark, nothing else; collation
     * is a total preorder.
     */
    ghost predicate Lawful() {
      && (forall t :: |normalize(t)| <= 3 * |t|)
      && (forall t :: IsAscii(t) ==> normalize(t) == t)
      && (forall t :: HasTerminator(normalize(t)) <==> HasTerminator(t))
      && (forall t :: |encode(t)| <= 3 * |t|)
      && (forall b :: decode(b).Some? ==> WellFormed(decode(b).value))
      && (forall t :: decode(encode(t)) == Some(t) <==> WellFormed(t) && !Marked(t))
      && (forall t :: WellFormed(t) && Marked(t) ==> decode(encode(t)) == Some(t[1..]))
      && Comparator(pathAtMost)
      && (forall b :: IsDigest(sha256(b)))
    }
  }
}
