/**
 The keys under which the components store in the shared cache: denylist entries
 (app/services/token_blocklist.py) and responses (app/providers/http_client.py).
 */
module CacheKeys {

  /** The first 32 hexadecimal digits of a hash of provider, URL and parameters. */
  type Digest = s: string | |s| == 32 witness "00000000000000000000000000000000"

  function RevokedKey(jti: string): string { "revoked:" + jti }

  function HttpKey(provider: string, digest: Digest): string { "http:" + provider + ":" + digest }

  lemma RevokedKeysDiffer(jti: string, jti': string)
    ensures RevokedKey(jti) == RevokedKey(jti') <==> jti == jti'
  {
    if RevokedKey(jti) == RevokedKey(jti') {
      assert jti == RevokedKey(jti)[8..] == RevokedKey(jti')[8..] == jti';
    }
  }

  /** Two requests share a key exactly when they are the same request of the same provider: a digest has
      a fixed length, so not even a colon in the name of a provider confuses them. */
  lemma HttpKeysDiffer(provider: string, digest: Digest, provider': string, digest': Digest)
    ensures HttpKey(provider, digest) == HttpKey(provider', digest') <==> provider == provider' && digest == digest'
  {
    var key, key' := HttpKey(provider, digest), HttpKey(provider', digest');
    assert digest == key[|key| - 32..] && digest' == key'[|key'| - 32..];
    assert provider == key[5..|key| - 33] && provider' == key'[5..|key'| - 33];
  }

  lemma KeySpaces(jti: string, provider: string, digest: Digest)
    ensures RevokedKey(jti) != HttpKey(provider, digest)
  {
    assert RevokedKey(jti)[0] == 'r' && HttpKey(provider, digest)[0] == 'h';
  }
}
