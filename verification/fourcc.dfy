/** The pieces of the video-capture device that do not talk to the camera
    libraries: unpacking a 32-bit FourCC code into its four characters, the
    translation of a FourCC into the pixel_format option of the capture
    backend, and the checks the device constructor makes on its camera and
    format indices. The code is an unsigned 32-bit integer, so a right shift
    by 8 is a division by 256 and a mask with 0xFF is the remainder modulo
    256; both are written that way here. */
module VideoDevice {
  import opened Wrappers

  type uint32 = x: int | 0 <= x < 0x1_0000_0000

  /** 256^i, the weight of byte i of a little-endian word. */
  function Pow256(i: nat): (r: nat)
    ensures r >= 1
  {
    if i == 0 then 1 else 256 * Pow256(i - 1)
  }

  /** The n low-order bytes of f, least significant first, each as the
      character with that code. */
  function Unpack(f: nat, n: nat): (s: string)
    ensures |s| == n
    ensures forall i :: 0 <= i < n ==> s[i] as int < 256
  {
    if n == 0 then [] else [(f % 256) as char] + Unpack(f / 256, n - 1)
  }

  /** The number whose little-endian bytes are the character codes of s. */
  function Pack(s: string): nat
  {
    if s == [] then 0 else s[0] as int + 256 * Pack(s[1..])
  }

  predicate ByteChars(s: string)
  {
    forall i :: 0 <= i < |s| ==> s[i] as int < 256
  }

  /** FourCCToString: four characters, byte 0 first. */
  method FourCCToString(fourcc: uint32) returns (v: string)
    ensures v == Unpack(fourcc, 4)
    ensures |v| == 4
  {
    v := [];
    var f: nat := fourcc;
    var i := 0;
    while i < 4
      invariant 0 <= i <= 4
      invariant |v| == i
      invariant v + Unpack(f, 4 - i) == Unpack(fourcc, 4)
    {
      assert Unpack(f, 4 - i) == [(f % 256) as char] + Unpack(f / 256, 4 - i - 1);
      assert v + Unpack(f, 4 - i) == (v + [(f % 256) as char]) + Unpack(f / 256, 4 - i - 1);
      v := v + [(f % 256) as char];
      f := f / 256;
      i := i + 1;
    }
  }

  /** f >> 8i on an unsigned word: i shifts right by 8 bits, as the loop of
      FourCCToString performs them. */
  function ShiftRight8(f: nat, i: nat): nat
  {
    if i == 0 then f else ShiftRight8(f / 256, i - 1)
  }

  /** Character i of the unpacked string is (f >> 8i) & 0xFF. */
  lemma {:induction false} UnpackAt(f: nat, n: nat, i: nat)
    requires i < n
    ensures Unpack(f, n)[i] as int == ShiftRight8(f, i) % 256
  {
    if i > 0 {
      UnpackAt(f / 256, n - 1, i - 1);
    }
  }

  /** Packing the unpacked bytes gives the code back when it fits in n bytes. */
  lemma {:induction false} PackUnpack(f: nat, n: nat)
    requires f < Pow256(n)
    ensures Pack(Unpack(f, n)) == f
  {
    if n > 0 {
      PackUnpack(f / 256, n - 1);
      assert Unpack(f, n)[1..] == Unpack(f / 256, n - 1);
    }
  }

  /** Unpacking the packed codes of a string of byte characters gives the
      string back. */
  lemma {:induction false} UnpackPack(s: string)
    requires ByteChars(s)
    ensures Pack(s) < Pow256(|s|)
    ensures Unpack(Pack(s), |s|) == s
  {
    if s != [] {
      UnpackPack(s[1..]);
      var p := Pack(s[1..]);
      assert (s[0] as int + 256 * p) % 256 == s[0] as int;
      assert (s[0] as int + 256 * p) / 256 == p;
    }
  }

  /** The FourCC round trip: a 32-bit code is the little-endian word of its
      four characters, and four byte characters are the characters of their
      word. */
  lemma FourCCRoundTrip(fourcc: uint32, s: string)
    requires |s| == 4 && ByteChars(s)
    ensures Pack(Unpack(fourcc, 4)) == fourcc
    ensures Pack(s) < 0x1_0000_0000 && Unpack(Pack(s), 4) == s
  {
    assert Pow256(4) == 0x1_0000_0000;
    PackUnpack(fourcc, 4);
    UnpackPack(s);
  }

  /** The value given to the capture backend's pixel_format option for a
      FourCC, or the reason the format is refused. */
  function PixelFormatOf(fourcc: string): (r: Result<string, string>)
    ensures r.Success? <==> fourcc in ["YUY2", "YUYV", "MJPG", "RGB3", "RGB4", "GREY"]
    ensures r.Success? ==> r.value in ["yuyv422", "mjpeg", "rgb24", "rgb32", "gray"]
  {
    if fourcc == "YUY2" || fourcc == "YUYV" then Success("yuyv422")
    else if fourcc == "MJPG" then Success("mjpeg")
    else if fourcc == "RGB3" then Success("rgb24")
    else if fourcc == "RGB4" then Success("rgb32")
    else if fourcc == "GREY" then Success("gray")
    else Failure("unsupported video format: " + fourcc)
  }

  /** The 32-bit codes the capture library reports for the supported formats,
      little-endian as FourCCToString reads them. */
  predicate SupportedCode(f: nat)
  {
    f == 0x3259_5559 || f == 0x5659_5559 || f == 0x4750_4A4D ||
    f == 0x3342_4752 || f == 0x3442_4752 || f == 0x5945_5247
  }

  /** A format reported by the capture library can be opened exactly when its
      numeric code is one of the six supported codes. */
  lemma {:induction false} SupportedCodesAccepted(fourcc: uint32)
    ensures PixelFormatOf(Unpack(fourcc, 4)).Success? <==> SupportedCode(fourcc)
  {
    var s := Unpack(fourcc, 4);
    assert Pow256(4) == 0x1_0000_0000;
    PackUnpack(fourcc, 4);
    if PixelFormatOf(s).Success? {
      assert s in ["YUY2", "YUYV", "MJPG", "RGB3", "RGB4", "GREY"];
      PackedNames();
    } else {
      if SupportedCode(fourcc) {
        UnpackedCodes(fourcc);
      }
    }
  }

  lemma PackedNames()
    ensures Pack("YUY2") == 0x3259_5559 && Pack("YUYV") == 0x5659_5559
    ensures Pack("MJPG") == 0x4750_4A4D && Pack("RGB3") == 0x3342_4752
    ensures Pack("RGB4") == 0x3442_4752 && Pack("GREY") == 0x5945_5247
  {
    PackName("YUY2", 0x59, 0x55, 0x59, 0x32);
    PackName("YUYV", 0x59, 0x55, 0x59, 0x56);
    PackName("MJPG", 0x4D, 0x4A, 0x50, 0x47);
    PackName("RGB3", 0x52, 0x47, 0x42, 0x33);
    PackName("RGB4", 0x52, 0x47, 0x42, 0x34);
    PackName("GREY", 0x47, 0x52, 0x45, 0x59);
  }

  lemma PackName(s: string, c0: nat, c1: nat, c2: nat, c3: nat)
    requires |s| == 4
    requires s[0] as int == c0 && s[1] as int == c1 && s[2] as int == c2 && s[3] as int == c3
    ensures Pack(s) == c0 + 0x100 * c1 + 0x1_0000 * c2 + 0x100_0000 * c3
  {
    var s1, s2, s3 := s[1..], s[2..], s[3..];
    assert s3[0] == s[3] && s3[1..] == [];
    assert Pack(s3) == c3;
    assert s2[0] == s[2] && s2[1..] == s3;
    assert Pack(s2) == c2 + 256 * c3;
    assert s1[0] == s[1] && s1[1..] == s2;
    assert Pack(s1) == c1 + 256 * (c2 + 256 * c3);
  }

  lemma UnpackedCodes(fourcc: uint32)
    requires SupportedCode(fourcc)
    ensures PixelFormatOf(Unpack(fourcc, 4)).Success?
  {
    var s := Unpack(fourcc, 4);
    if fourcc == 0x3259_5559 {
      UnpackedYUY2();
      assert s == "YUY2";
    } else if fourcc == 0x5659_5559 {
      UnpackedYUYV();
      assert s == "YUYV";
    } else if fourcc == 0x4750_4A4D {
      UnpackedMJPG();
      assert s == "MJPG";
    } else if fourcc == 0x3342_4752 {
      UnpackedRGB3();
      assert s == "RGB3";
    } else if fourcc == 0x3442_4752 {
      UnpackedRGB4();
      assert s == "RGB4";
    } else if fourcc == 0x5945_5247 {
      UnpackedGREY();
      assert s == "GREY";
    }
  }

  lemma UnpackedYUY2()
    ensures Unpack(0x3259_5559, 4) == "YUY2"
  {
  }

  lemma UnpackedYUYV()
    ensures Unpack(0x5659_5559, 4) == "YUYV"
  {
  }

  lemma UnpackedMJPG()
    ensures Unpack(0x4750_4A4D, 4) == "MJPG"
  {
  }

  lemma UnpackedRGB3()
    ensures Unpack(0x3342_4752, 4) == "RGB3"
  {
  }

  lemma UnpackedRGB4()
    ensures Unpack(0x3442_4752, 4) == "RGB4"
  {
  }

  lemma UnpackedGREY()
    ensures Unpack(0x5945_5247, 4) == "GREY"
  {
  }

  /** The fields of a format descriptor that opening the device reads. */
  datatype VideoFormat = VideoFormat(width: uint32, height: uint32, fourcc: string, fps: uint32, bpp: uint32)

  datatype CameraInfo = CameraInfo(name: string, devicePath: string, formats: seq<VideoFormat>)

  /** What the device is opened with: the selected format and the backend's
      pixel_format value for it. */
  datatype OpenRequest = OpenRequest(camera: CameraInfo, format: VideoFormat, pixelFormat: string)

  /** The constructor's checks followed by the format translation in openDevice:
      a missing camera, a missing format and an unsupported FourCC each stop
      the construction before the device is opened. */
  function OpenRequestFor(cams: seq<CameraInfo>, camId: nat, optsId: nat): (r: Result<OpenRequest, string>)
    ensures r.Success? <==>
      camId < |cams| && optsId < |cams[camId].formats| &&
      PixelFormatOf(cams[camId].formats[optsId].fourcc).Success?
    ensures r.Success? ==>
      r.value.camera == cams[camId] && r.value.format == cams[camId].formats[optsId] &&
      r.value.pixelFormat == PixelFormatOf(r.value.format.fourcc).value
  {
    if camId >= |cams| then Failure("the camera does not exist")
    else if optsId >= |cams[camId].formats| then Failure("the camera option does not exist")
    else
      var opt := cams[camId].formats[optsId];
      var pf :- PixelFormatOf(opt.fourcc);
      Success(OpenRequest(cams[camId], opt, pf))
  }
}
