/** The converter object of Resources/libiconv-1.11/lib/big5hkscs1999.h: the functions of `Big5Hkscs`, with
    the pending characters kept in the object and the bytes written to a buffer. */
module Big5HkscsConverter {
  import opened Big5Hkscs

  const RET_ILUNI := -1
  const RET_TOOSMALL := -2

  class Converter {
    const tables: Tables
    var istate: ucs4
    var ostate: byte

    ghost predicate Valid()
      reads this
    {
      Consistent(tables) && OutputState(ostate)
    }

    constructor (t: Tables)
      requires Consistent(t)
      ensures Valid() && tables == t && istate == 0 && ostate == 0
    {
      tables, istate, ostate := t, 0, 0;
    }

    /** `big5hkscs1999_mbtowc` */
    method Mbtowc(s: seq<byte>) returns (r: MbResult)
      requires Valid() && s != []
      modifies `istate
      ensures r == Big5Hkscs.Mbtowc(tables, old(istate), s)
      ensures istate == if r.Got? then r.istate else old(istate)
    {
      var lastWc := istate;
      if lastWc != 0 {
        istate := 0;
        return Got(lastWc, 0, 0);
      }
      var c := s[0];
      if c < 0x80 {
        return Got(c as ucs4, 1, 0);
      }
      if c >= 0xa1 && c < 0xff {
        if |s| < 2 {
          return TooFew;
        }
        var c2 := s[1];
        if TrailByte(c2) {
          if !((c == 0xc6 && c2 >= 0xa1) || c == 0xc7) {
            if (c, c2) in tables.big5 {
              return Got(tables.big5[(c, c2)], 2, 0);
            }
          }
        }
      }
      if HkscsLead(c) {
        if |s| < 2 {
          return TooFew;
        }
        if TrailByte(s[1]) && (c, s[1]) in tables.hkscs {
          return Got(tables.hkscs[(c, s[1])], 2, 0);
        }
      }
      if c == 0x88 {
        var c2 := s[1];
        if c2 == 0x62 || c2 == 0x64 || c2 == 0xa3 || c2 == 0xa5 {
          istate := AccentOf(c2);
          return Got(BaseOf(c2), 2, AccentOf(c2));
        }
      }
      return IllegalSequence;
    }

    /** `big5hkscs1999_wctomb`: the number of bytes stored, or an error; an error leaves the held back
        code as it was. */
    method Wctomb(r: array<byte>, wc: ucs4, n: nat) returns (ret: int)
      requires Valid() && 1 <= n <= r.Length
      modifies `ostate, r
      ensures Valid()
      ensures match Big5Hkscs.Wctomb(tables, old(ostate), wc, n)
              case Wrote(bytes, state) => ret == |bytes| && r[..ret] == bytes && ostate == state
              case IllegalChar => ret == RET_ILUNI && ostate == old(ostate)
              case TooSmall => ret == RET_TOOSMALL && ostate == old(ostate)
    {
      var count := 0;
      var last := ostate;
      if last != 0 {
        if wc == 0x304 || wc == 0x30c {
          if n >= 2 {
            r[0], r[1] := 0x88, Combine(last, wc);
            ostate := 0;
            assert r[..2] == [0x88, Combine(last, wc)];
            return 2;
          }
          return RET_TOOSMALL;
        }
        if n < 2 {
          return RET_TOOSMALL;
        }
        r[0], r[1] := 0x88, last;
        count := 2;
      }
      ghost var first := if last != 0 then [0x88, last] else [];
      assert r[..count] == first;
      if wc < 0x80 {
        if n > count {
          r[count] := wc as byte;
          ostate := 0;
          assert r[..count + 1] == first + [wc as byte];
          return count + 1;
        }
        return RET_TOOSMALL;
      }
      if wc in tables.big5Codes {
        var buf := tables.big5Codes[wc];
        if !((buf.0 == 0xc6 && buf.1 >= 0xa1) || buf.0 == 0xc7) {
          if n >= count + 2 {
            r[count], r[count + 1] := buf.0, buf.1;
            ostate := 0;
            assert r[..count + 2] == first + [buf.0, buf.1];
            return count + 2;
          }
          return RET_TOOSMALL;
        }
      }
      if wc in tables.hkscsCodes {
        var buf := tables.hkscsCodes[wc];
        if TakenBack(wc) {
          assert buf.0 == 0x88 && (buf.1 == 0x66 || buf.1 == 0xa7);
          ostate := buf.1;
          return count;
        }
        if n >= count + 2 {
          r[count], r[count + 1] := buf.0, buf.1;
          ostate := 0;
          assert r[..count + 2] == first + [buf.0, buf.1];
          return count + 2;
        }
        return RET_TOOSMALL;
      }
      return RET_ILUNI;
    }

    /** `big5hkscs1999_reset`; clearing the state is left to the caller. */
    method Reset(r: array<byte>, n: nat) returns (ret: int)
      requires Valid() && n <= r.Length
      modifies r
      ensures if |Big5Hkscs.Reset(ostate)| <= n then
                ret == |Big5Hkscs.Reset(ostate)| && r[..ret] == Big5Hkscs.Reset(ostate)
              else ret == RET_TOOSMALL && r[..] == old(r[..])
    {
      var last := ostate;
      if last != 0 {
        if n < 2 {
          return RET_TOOSMALL;
        }
        r[0], r[1] := 0x88, last;
        assert r[..2] == [0x88, last];
        return 2;
      }
      return 0;
    }

    /** `normal_flushwc` */
    method Flush() returns (wc: Option<ucs4>)
      modifies `istate
      ensures istate == 0 && wc == if old(istate) != 0 then Some(old(istate)) else None
    {
      if istate != 0 {
        wc := Some(istate);
        istate := 0;
      } else {
        wc := None;
      }
    }
  }
}
