/** Strings on the Android side, and the rule that decides whether a name is blocked. */
module DnsText {
  import opened ByteStrings

  /** A UTF-16 code unit that a signed byte widens to. */
  type Unit = u: int | 0 <= u < 128 || 0xFF80 <= u < 0x10000 witness 0
  type Text = seq<Unit>

  const TEXT_DOT: Unit := 46

  /** A byte becomes a character with its sign extended. */
  function Widen(b: Byte): Unit {
    if b < 128 then b else 0xFF00 + b
  }

  function WidenAll(s: Bytes): (t: Text)
    ensures |t| == |s| && forall i :: 0 <= i < |s| ==> t[i] == Widen(s[i])
  {
    seq(|s|, i requires 0 <= i < |s| => Widen(s[i]))
  }

  /** Only the ASCII capitals among these code units have a lower-case form. */
  function Lower(u: Unit): Unit {
    if 65 <= u <= 90 then u + 32 else u
  }

  function Lowercase(s: Text): (t: Text)
    ensures |t| == |s| && forall i :: 0 <= i < |s| ==> t[i] == Lower(s[i])
  {
    seq(|s|, i requires 0 <= i < |s| => Lower(s[i]))
  }

  function TrimEndDots(s: Text): (t: Text)
    ensures t <= s && (t == [] || t[|t| - 1] != TEXT_DOT)
    ensures forall i :: |t| <= i < |s| ==> s[i] == TEXT_DOT
  {
    if s != [] && s[|s| - 1] == TEXT_DOT then TrimEndDots(s[..|s| - 1]) else s
  }

  predicate EndsWith(s: Text, t: Text) {
    |t| <= |s| && s[|s| - |t|..] == t
  }

  /** The name, lower-cased and without trailing dots, equals a blocked domain or ends
      with a dot and a blocked domain. */
  predicate IsBlocked(domain: Text, blocked: set<Text>) {
    var lower := TrimEndDots(Lowercase(domain));
    exists b :: b in blocked && (lower == b || EndsWith(lower, [TEXT_DOT] + b))
  }
}
