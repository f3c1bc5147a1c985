/**
 From a scattered frame to its segments (bhyve/pci_e82545.c, e82545_transmit): header
 extraction, the VLAN tag and segmentation in a row.
 */
module TxOffload {
  import opened Bytes
  import opened Sequences
  import opened Checksum
  import opened PacketChecksum
  import opened SegmentHeader
  import opened Segmentation
  import opened TxHeader

  // The checksum offsets behind the tag.
  function Shifted(c: Context, vlan: bool): Context {
    if vlan then c.(ip := Moved(c.ip), tcp := Moved(c.tcp)) else c
  }

  // The header in front of every segment.
  function Header(f: seq<byte>, hdrlen: nat, vlan: bool, tag: seq<byte>): (h: seq<byte>)
    requires hdrlen <= |f| && (vlan ==> ADDRS <= hdrlen)
    ensures |tag| == TAG ==> |h| == if vlan then hdrlen + TAG else hdrlen
  {
    if vlan then Tagged(f[..hdrlen], tag) else f[..hdrlen]
  }

  /** Wherever the frame was cut, its segments are the pieces of what is behind the header,
      each behind the header with its fields set, tagged if asked for. */
  method TransmitSegments(iovb: array<seq<byte>>, cnt: nat, hdrlen: nat, vlan: bool, tag: seq<byte>, c: Context,
                          ghost ps: seq<seq<byte>>, ghost f: seq<byte>) returns (out: seq<seq<byte>>)
    requires Pieces(iovb, 2, cnt, ps) && f == Flatten(ps) && cnt <= MAX_TXSEGS && |tag| == TAG
    requires 0 < hdrlen <= |f| && (vlan ==> ADDRS <= hdrlen)
    requires c.mss > 0 && Inside(Shifted(c, vlan), if vlan then hdrlen + TAG else hdrlen)
    modifies iovb
    ensures IsCount(Shifted(c, vlan), |out|)
    ensures AllOk(Shifted(c, vlan), Header(f, hdrlen, vlan, tag), f[hdrlen..], out)
  {
    var vlen := if vlan then TAG else 0;
    var hdr := new byte[vlen + hdrlen];
    var iov, iovcnt := TakeHeader(iovb, 2, cnt, hdr, vlen, hdrlen, ps);
    WithoutFlatten(ps, hdrlen);
    assert iovb[iov + 1..iov + iovcnt] == Without(ps, hdrlen);
    if vlan {
      InsertTag(hdr, tag);
    } else {
      assert hdr[0..] == hdr[..];
    }
    assert hdr[..] == Header(f, hdrlen, vlan, tag);
    out := Segments(Shifted(c, vlan), hdr, iovb[iov + 1..iov + iovcnt]);
  }

  /** Nothing of the frame is lost: the segments' bodies are what is behind the header, as
      far as the payload length says. */
  lemma FrameDelivered(f: seq<byte>, hdrlen: nat, vlan: bool, tag: seq<byte>, c: Context, out: seq<seq<byte>>)
    requires |tag| == TAG && hdrlen <= |f| && (vlan ==> ADDRS <= hdrlen)
    requires Inside(Shifted(c, vlan), if vlan then hdrlen + TAG else hdrlen) && c.paylen == |f| - hdrlen
    requires IsCount(Shifted(c, vlan), |out|)
    requires AllOk(Shifted(c, vlan), Header(f, hdrlen, vlan, tag), f[hdrlen..], out)
    ensures var n := |Header(f, hdrlen, vlan, tag)|;
            (forall k :: 0 <= k < |out| ==> n <= |out[k]|) && f[..hdrlen] + Bodies(out, n) == f
  {
    ExactPartition(Shifted(c, vlan), Header(f, hdrlen, vlan, tag), f[hdrlen..], out);
    assert f[..hdrlen] + f[hdrlen..] == f;
  }
}
