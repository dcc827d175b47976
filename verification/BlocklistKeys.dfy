/** The keys of the kernel blocklist: names cut and zero-padded to 256 bytes. */
module BlocklistKeys {
  import opened ByteStrings

  const MAX_DNS_NAME_LEN: nat := 256
  const MAX_ENTRIES: nat := 1024

  type Key = k: Bytes | |k| == MAX_DNS_NAME_LEN witness Zeros(MAX_DNS_NAME_LEN)

  function Zeros(n: nat): (z: Bytes)
    ensures |z| == n && forall i :: 0 <= i < n ==> z[i] == 0
  {
    seq(n, i => 0)
  }

  /** The key under which a name is stored and looked up. */
  function KeyOf(name: Bytes): Key {
    if |name| <= MAX_DNS_NAME_LEN then name + Zeros(MAX_DNS_NAME_LEN - |name|) else name[..MAX_DNS_NAME_LEN]
  }

  predicate NulFree(s: Bytes) {
    forall i :: 0 <= i < |s| ==> s[i] != 0
  }

  /** A name that its key determines. */
  predicate Storable(s: Bytes) {
    |s| <= MAX_DNS_NAME_LEN && NulFree(s)
  }

  ghost predicate AllStorable(names: set<Bytes>) {
    forall d :: d in names ==> Storable(d)
  }

  lemma KeyShape(a: Bytes, i: nat)
    requires Storable(a) && i < MAX_DNS_NAME_LEN
    ensures KeyOf(a)[i] == if i < |a| then a[i] else 0
    ensures KeyOf(a)[i] == 0 <==> |a| <= i
  {
  }

  /** The first 256 bytes of any name, each its own or zero. */
  lemma KeyLayout(name: Bytes, i: nat)
    requires i < 256
    ensures |KeyOf(name)| == 256 && KeyOf(name)[i] == if i < |name| then name[i] else 0
  {
  }

  lemma KeyInjective(a: Bytes, b: Bytes)
    requires Storable(a) && Storable(b) && KeyOf(a) == KeyOf(b)
    ensures a == b
  {
    var end := if |a| < |b| then |a| else |b|;
    if end < MAX_DNS_NAME_LEN {
      KeyShape(a, end);
      KeyShape(b, end);
    }
    forall i | 0 <= i < |a| && i < |b|
      ensures a[i] == b[i]
    {
      KeyShape(a, i);
      KeyShape(b, i);
    }
  }

  /** A trailing zero byte disappears in the padding. */
  lemma KeyOfTrailingZero(s: Bytes)
    ensures |s| < MAX_DNS_NAME_LEN ==> KeyOf(s + [0]) == KeyOf(s)
  {
  }

  function KeysOf(names: set<Bytes>): (keys: set<Key>)
    ensures forall d :: d in names ==> KeyOf(d) in keys
  {
    set d | d in names :: KeyOf(d)
  }

  /** For storable names, looking a key up in the map is looking the name up in the list. */
  lemma LookupIsMembership(name: Bytes, names: set<Bytes>)
    requires Storable(name) && AllStorable(names)
    ensures KeyOf(name) in KeysOf(names) <==> name in names
  {
    if KeyOf(name) in KeysOf(names) {
      var d :| d in names && KeyOf(d) == KeyOf(name);
      KeyInjective(name, d);
    }
  }
}
