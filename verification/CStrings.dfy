/**
  NUL-terminated byte strings as src/confile.c sees them: the two comparisons it mixes
  (`strcmp` for lookup and deletion, `memcmp` over the new key's length for insertion)
  and the order they induce.
 */
module CStrings {

  /** A byte of a C string: anything but the terminating NUL. */
  type CChar = c: char | '\U{01}' <= c <= '\U{FF}' witness 'a'

  /** The contents of a C string; the terminator is implicit. */
  type CString = seq<CChar>

  /** `strcmp`: the first differing bytes decide, the terminator counting as byte 0. */
  function StrCmp(a: CString, b: CString): int {
    if a == [] then (if b == [] then 0 else -(b[0] as int))
    else if b == [] then a[0] as int
    else if a[0] != b[0] then a[0] as int - b[0] as int
    else StrCmp(a[1..], b[1..])
  }

  /** `memcmp(key, stored, strlen(key))`: only the bytes of `key` are compared, against the
      bytes of `stored` followed by its terminator. */
  function MemCmp(key: CString, stored: CString): int {
    if key == [] then 0
    else if stored == [] then key[0] as int
    else if key[0] != stored[0] then key[0] as int - stored[0] as int
    else MemCmp(key[1..], stored[1..])
  }

  /** The strict order by which lookups navigate. */
  predicate Less(a: CString, b: CString) {
    StrCmp(a, b) < 0
  }

  /** The two comparisons return the same number, except that `memcmp` calls a proper prefix
      of the stored key equal to it. */
  lemma {:induction false} MemCmpIsStrCmpUnlessProperPrefix(key: CString, stored: CString)
    ensures MemCmp(key, stored) == if key < stored then 0 else StrCmp(key, stored)
    ensures key < stored ==> Less(key, stored)
  {
    if key != [] && stored != [] && key[0] == stored[0] {
      MemCmpIsStrCmpUnlessProperPrefix(key[1..], stored[1..]);
      assert key == [key[0]] + key[1..] && stored == [stored[0]] + stored[1..];
      assert key < stored <==> key[1..] < stored[1..];
    }
  }

  /** `strcmp` returns 0 exactly on equal strings, and swapping its arguments flips the sign. */
  lemma {:induction false} StrCmpTrichotomy(a: CString, b: CString)
    ensures StrCmp(a, b) == 0 <==> a == b
    ensures StrCmp(b, a) == -StrCmp(a, b)
  {
    if a != [] && b != [] && a[0] == b[0] {
      StrCmpTrichotomy(a[1..], b[1..]);
      assert a == [a[0]] + a[1..] && b == [b[0]] + b[1..];
    }
  }

  lemma {:induction false} LessTransitive(a: CString, b: CString, c: CString)
    requires Less(a, b) && Less(b, c)
    ensures Less(a, c)
  {
    if a != [] && b != [] && c != [] && a[0] == b[0] == c[0] {
      LessTransitive(a[1..], b[1..], c[1..]);
    }
  }

  /** The extensions of a string form an interval of the order that starts at the string. */
  lemma {:induction false} ExtensionsAreConvex(prefix: CString, mid: CString, ext: CString)
    requires prefix <= ext
    requires !Less(mid, prefix) && !Less(ext, mid)
    ensures prefix <= mid
  {
    if prefix != [] {
      assert prefix[0] == ext[0];
      assert mid != [];
      assert mid[0] == prefix[0];
      assert prefix[1..] <= ext[1..];
      ExtensionsAreConvex(prefix[1..], mid[1..], ext[1..]);
      assert prefix == [prefix[0]] + prefix[1..] && mid == [mid[0]] + mid[1..];
    }
  }

  /** The order is the lexicographic one on byte values: the first difference decides, and a proper
      prefix comes first. */
  lemma {:induction false} LessIsLexicographic(a: CString, b: CString)
    ensures Less(a, b) <==> a < b || exists i: nat :: DiffersAt(a, b, i) && a[i] as int < b[i] as int
  {
    if a != [] && b != [] && a[0] == b[0] {
      LessIsLexicographic(a[1..], b[1..]);
      assert a == [a[0]] + a[1..] && b == [b[0]] + b[1..];
      assert a < b <==> a[1..] < b[1..];
      forall i: nat ensures DiffersAt(a[1..], b[1..], i) <==> DiffersAt(a, b, i + 1) {
        DiffersLater(a, b, i);
      }
      if i: nat :| DiffersAt(a, b, i) && (a[i] as int) < b[i] as int {
        assert i > 0 && DiffersAt(a[1..], b[1..], i - 1);
      }
    } else if a != [] && b != [] {
      assert DiffersAt(a, b, 0);
      assert forall i: nat :: DiffersAt(a, b, i) ==> i == 0;
    }
  }

  lemma {:induction false} DiffersLater(a: CString, b: CString, i: nat)
    requires a != [] && b != [] && a[0] == b[0]
    ensures DiffersAt(a[1..], b[1..], i) <==> DiffersAt(a, b, i + 1)
  {
    if i < |a| - 1 && i < |b| - 1 {
      assert a[..i + 1] == [a[0]] + a[1..][..i] && b[..i + 1] == [b[0]] + b[1..][..i];
      assert a[..i + 1][1..] == a[1..][..i] && b[..i + 1][1..] == b[1..][..i];
    }
  }

  predicate DiffersAt(a: CString, b: CString, i: nat) {
    i < |a| && i < |b| && a[i] != b[i] && a[..i] == b[..i]
  }
}
