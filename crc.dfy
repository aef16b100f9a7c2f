/** CRC-16/MODBUS (section 6.2.2 of the Modbus over Serial Line Specification
    V1.02): reflected polynomial 0xA001, initial register 0xFFFF, processed
    least significant bit first, emitted low byte first. */
module Crc {
  import opened Bytes

  const Polynomial: bv16 := 0xA001
  const Initial: bv16 := 0xFFFF

  /** One bit step: shift right, XOR the polynomial in when the bit shifted out was set. */
  function ShiftStep(crc: bv16): bv16
  {
    if crc & 1 == 1 then (crc >> 1) ^ Polynomial else crc >> 1
  }

  /** `k` bit steps in a row. */
  function Shifts(crc: bv16, k: nat): bv16
    decreases k
  {
    if k == 0 then crc else Shifts(ShiftStep(crc), k - 1)
  }

  /** One byte step: XOR the byte into the register, then eight bit steps. */
  function ByteStep(crc: bv16, b: byte): bv16
  {
    Shifts(crc ^ b as bv16, 8)
  }

  /** The register after feeding `data`, front to back, into register `crc`. */
  function Fold(crc: bv16, data: seq<byte>): bv16
    decreases |data|
  {
    if |data| == 0 then crc else Fold(ByteStep(crc, data[0]), data[1..])
  }

  /** The register after the whole of `data`, starting from 0xFFFF. */
  function Register(data: seq<byte>): bv16
  {
    Fold(Initial, data)
  }

  /** Fold law: the register of `data + [b]` is one byte step from the register of `data`. */
  lemma {:induction false} FoldSnoc(crc: bv16, data: seq<byte>, b: byte)
    ensures Fold(crc, data + [b]) == ByteStep(Fold(crc, data), b)
    decreases |data|
  {
    if |data| == 0 {
      assert data + [b] == [b];
      assert [b][1..] == [];
    } else {
      assert (data + [b])[1..] == data[1..] + [b];
      FoldSnoc(ByteStep(crc, data[0]), data[1..], b);
    }
  }

  /** The two checksum bytes of `data` as they go on the wire: the register, low byte first. */
  function Checksum(data: seq<byte>): (r: seq<byte>)
    ensures |r| == 2 && r[0] as int + 0x100 * (r[1] as int) == Register(data) as int
  {
    var reg := Register(data) as int;
    [reg % 0x100, reg / 0x100]
  }

  lemma RegisterSnoc(data: seq<byte>, b: byte)
    ensures Register(data + [b]) == ByteStep(Register(data), b)
  {
    FoldSnoc(Initial, data, b);
  }

  /** The empty message has checksum FF FF. */
  lemma EmptyChecksum()
    ensures Checksum([]) == [0xFF, 0xFF]
  {
  }

  /** The bit-serial computation, byte by byte and bit by bit, updating one register. */
  method Crc16(data: seq<byte>) returns (r: seq<byte>)
    ensures r == Checksum(data)
  {
    var crc: bv16 := 0xFFFF;
    for n := 0 to |data|
      invariant crc == Register(data[..n])
    {
      crc := UpdateByte(crc, data[n]);
      assert data[..n + 1] == data[..n] + [data[n]];
      RegisterSnoc(data[..n], data[n]);
    }
    assert data[..|data|] == data;
    r := LowByteFirst(crc);
    ChecksumOfRegister(data, crc);
  }

  /** `crc.to_bytes(2, 'little')`. */
  method LowByteFirst(reg: bv16) returns (r: seq<byte>)
    ensures r == [reg as int % 0x100, reg as int / 0x100]
  {
    var n := reg as int;
    r := [n % 0x100, n / 0x100];
  }

  /** The body of the outer loop: XOR the byte in, then shift eight times. */
  method UpdateByte(crc: bv16, b: byte) returns (r: bv16)
    ensures r == ByteStep(crc, b)
  {
    r := crc ^ b as bv16;
    for i := 0 to 8
      invariant Shifts(r, 8 - i) == ByteStep(crc, b)
    {
      if r & 1 == 1 {
        r := r >> 1;
        r := r ^ 0xA001;
      } else {
        r := r >> 1;
      }
    }
  }

  /** A byte step spelled out as eight nested bit steps. */
  lemma ByteStepUnrolled(crc: bv16, b: byte)
    ensures var x := crc ^ b as bv16;
      ByteStep(crc, b) == ShiftStep(ShiftStep(ShiftStep(ShiftStep(ShiftStep(ShiftStep(ShiftStep(ShiftStep(x))))))))
  {
    var x := crc ^ b as bv16;
    calc {
      Shifts(x, 8);
      Shifts(ShiftStep(x), 7);
      Shifts(ShiftStep(ShiftStep(x)), 6);
      Shifts(ShiftStep(ShiftStep(ShiftStep(x))), 5);
      Shifts(ShiftStep(ShiftStep(ShiftStep(ShiftStep(x)))), 4);
      Shifts(ShiftStep(ShiftStep(ShiftStep(ShiftStep(ShiftStep(x))))), 3);
      Shifts(ShiftStep(ShiftStep(ShiftStep(ShiftStep(ShiftStep(ShiftStep(x)))))), 2);
      Shifts(ShiftStep(ShiftStep(ShiftStep(ShiftStep(ShiftStep(ShiftStep(ShiftStep(x))))))), 1);
    }
  }

  lemma FoldCons(crc: bv16, b: byte, rest: seq<byte>)
    ensures Fold(crc, [b] + rest) == Fold(ByteStep(crc, b), rest)
  {
    assert ([b] + rest)[1..] == rest;
  }

  /** The checksum is the register, low byte first. */
  lemma ChecksumOfRegister(data: seq<byte>, reg: bv16)
    requires Register(data) == reg
    ensures Checksum(data) == [reg as int % 0x100, reg as int / 0x100]
  {
  }

  /** Feeding one byte then the rest: the first step of a fold, spelled out with its value. */
  lemma FoldFirst(crc: bv16, b: byte, rest: seq<byte>, next: bv16)
    requires ByteStep(crc, b) == next
    ensures Fold(crc, [b] + rest) == Fold(next, rest)
  {
    FoldCons(crc, b, rest);
  }

  /** Three byte steps of a fold, each checked by unrolling its eight bit steps. */
  lemma FoldThree(crc: bv16, b0: byte, b1: byte, b2: byte, r0: bv16, r1: bv16, r2: bv16, rest: seq<byte>)
    requires ByteStep(crc, b0) == r0 && ByteStep(r0, b1) == r1 && ByteStep(r1, b2) == r2
    ensures Fold(crc, [b0, b1, b2] + rest) == Fold(r2, rest)
  {
    var s := [b0, b1, b2] + rest;
    assert s[0] == b0 && s[1..] == [b1, b2] + rest;
    assert Fold(crc, s) == Fold(r0, [b1, b2] + rest);
    assert ([b1, b2] + rest)[1..] == [b2] + rest;
    assert Fold(r0, [b1, b2] + rest) == Fold(r1, [b2] + rest);
    FoldFirst(r1, b2, rest, r2);
  }

  lemma Vector1Head()
    ensures ByteStep(0xFFFF, 0x01) == 0x807E && ByteStep(0x807E, 0x04) == 0xE301 && ByteStep(0xE301, 0x30) == 0xD422
  {
    ByteStepUnrolled(0xFFFF, 0x01);
    ByteStepUnrolled(0x807E, 0x04);
    ByteStepUnrolled(0xE301, 0x30);
  }

  lemma Vector1Tail()
    ensures ByteStep(0xD422, 0x11) == 0x1594 && ByteStep(0x1594, 0x00) == 0xAF14 && ByteStep(0xAF14, 0x1C) == 0xC6AE
  {
    ByteStepUnrolled(0xD422, 0x11);
    ByteStepUnrolled(0x1594, 0x00);
    ByteStepUnrolled(0xAF14, 0x1C);
  }

  lemma RegisterVector1()
    ensures Register([0x01, 0x04, 0x30, 0x11, 0x00, 0x1C]) == 0xC6AE
  {
    Vector1Head();
    Vector1Tail();
    FoldThree(0xFFFF, 0x01, 0x04, 0x30, 0x807E, 0xE301, 0xD422, [0x11, 0x00, 0x1C]);
    FoldThree(0xD422, 0x11, 0x00, 0x1C, 0x1594, 0xAF14, 0xC6AE, []);
    assert [0x01, 0x04, 0x30, 0x11, 0x00, 0x1C] == [0x01, 0x04, 0x30] + [0x11, 0x00, 0x1C];
    assert [0x11, 0x00, 0x1C] == [0x11, 0x00, 0x1C] + [];
  }

  /** Reference vector: the read command for 0x3011..0x302C. */
  lemma Vector1()
    ensures Checksum([0x01, 0x04, 0x30, 0x11, 0x00, 0x1C]) == [0xAE, 0xC6]
  {
    RegisterVector1();
    ChecksumOfRegister([0x01, 0x04, 0x30, 0x11, 0x00, 0x1C], 0xC6AE);
  }

  lemma Vector2Tail()
    ensures ByteStep(0xD422, 0x00) == 0x1954 && ByteStep(0x1954, 0x00) == 0xFF18 && ByteStep(0xFF18, 0x01) == 0xCA3E
  {
    ByteStepUnrolled(0xD422, 0x00);
    ByteStepUnrolled(0x1954, 0x00);
    ByteStepUnrolled(0xFF18, 0x01);
  }

  lemma RegisterVector2()
    ensures Register([0x01, 0x04, 0x30, 0x00, 0x00, 0x01]) == 0xCA3E
  {
    Vector1Head();
    Vector2Tail();
    FoldThree(0xFFFF, 0x01, 0x04, 0x30, 0x807E, 0xE301, 0xD422, [0x00, 0x00, 0x01]);
    FoldThree(0xD422, 0x00, 0x00, 0x01, 0x1954, 0xFF18, 0xCA3E, []);
    assert [0x01, 0x04, 0x30, 0x00, 0x00, 0x01] == [0x01, 0x04, 0x30] + [0x00, 0x00, 0x01];
    assert [0x00, 0x00, 0x01] == [0x00, 0x00, 0x01] + [];
  }

  /** Reference vector: the read command for 0x3000. */
  lemma Vector2()
    ensures Checksum([0x01, 0x04, 0x30, 0x00, 0x00, 0x01]) == [0x3E, 0xCA]
  {
    RegisterVector2();
    ChecksumOfRegister([0x01, 0x04, 0x30, 0x00, 0x00, 0x01], 0xCA3E);
  }

  lemma Vector3Head()
    ensures ByteStep(0xFFFF, 0x01) == 0x807E && ByteStep(0x807E, 0x03) == 0x2140 && ByteStep(0x2140, 0x8F) == 0x5461
  {
    ByteStepUnrolled(0xFFFF, 0x01);
    ByteStepUnrolled(0x807E, 0x03);
    ByteStepUnrolled(0x2140, 0x8F);
  }

  lemma Vector3Tail()
    ensures ByteStep(0x5461, 0xF0) == 0xAC95 && ByteStep(0xAC95, 0x00) == 0x6F6C && ByteStep(0x6F6C, 0x1D) == 0x24AF
  {
    ByteStepUnrolled(0x5461, 0xF0);
    ByteStepUnrolled(0xAC95, 0x00);
    ByteStepUnrolled(0x6F6C, 0x1D);
  }

  lemma RegisterVector3()
    ensures Register([0x01, 0x03, 0x8F, 0xF0, 0x00, 0x1D]) == 0x24AF
  {
    Vector3Head();
    Vector3Tail();
    FoldThree(0xFFFF, 0x01, 0x03, 0x8F, 0x807E, 0x2140, 0x5461, [0xF0, 0x00, 0x1D]);
    FoldThree(0x5461, 0xF0, 0x00, 0x1D, 0xAC95, 0x6F6C, 0x24AF, []);
    assert [0x01, 0x03, 0x8F, 0xF0, 0x00, 0x1D] == [0x01, 0x03, 0x8F] + [0xF0, 0x00, 0x1D];
    assert [0xF0, 0x00, 0x1D] == [0xF0, 0x00, 0x1D] + [];
  }

  /** Reference vector: the read command for 0x8FF0..0x900C. */
  lemma Vector3()
    ensures Checksum([0x01, 0x03, 0x8F, 0xF0, 0x00, 0x1D]) == [0xAF, 0x24]
  {
    RegisterVector3();
    ChecksumOfRegister([0x01, 0x03, 0x8F, 0xF0, 0x00, 0x1D], 0x24AF);
  }

  lemma Vector4Head()
    ensures ByteStep(0xFFFF, 0x01) == 0x807E && ByteStep(0x807E, 0x04) == 0xE301 && ByteStep(0xE301, 0x02) == 0x01A3
  {
    ByteStepUnrolled(0xFFFF, 0x01);
    ByteStepUnrolled(0x807E, 0x04);
    ByteStepUnrolled(0xE301, 0x02);
  }

  lemma Vector4Tail()
    ensures ByteStep(0x01A3, 0x17) == 0x7701 && ByteStep(0x7701, 0x70) == 0x24B7
  {
    ByteStepUnrolled(0x01A3, 0x17);
    ByteStepUnrolled(0x7701, 0x70);
  }

  lemma RegisterVector4()
    ensures Register([0x01, 0x04, 0x02, 0x17, 0x70]) == 0x24B7
  {
    Vector4Head();
    Vector4Tail();
    FoldThree(0xFFFF, 0x01, 0x04, 0x02, 0x807E, 0xE301, 0x01A3, [0x17, 0x70]);
    FoldFirst(0x01A3, 0x17, [0x70], 0x7701);
    FoldFirst(0x7701, 0x70, [], 0x24B7);
    assert [0x01, 0x04, 0x02, 0x17, 0x70] == [0x01, 0x04, 0x02] + [0x17, 0x70];
    assert [0x17, 0x70] == [0x17] + [0x70];
    assert [0x70] == [0x70] + [];
  }

  /** Reference vector: the one-word answer to a read of 0x3000. */
  lemma Vector4()
    ensures Checksum([0x01, 0x04, 0x02, 0x17, 0x70]) == [0xB7, 0x24]
  {
    RegisterVector4();
    ChecksumOfRegister([0x01, 0x04, 0x02, 0x17, 0x70], 0x24B7);
  }

  lemma Vector5Head()
    ensures ByteStep(0xFFFF, 0x01) == 0x807E && ByteStep(0x807E, 0x10) == 0xEC01 && ByteStep(0xEC01, 0x90) == 0xAC2D
  {
    ByteStepUnrolled(0xFFFF, 0x01);
    ByteStepUnrolled(0x807E, 0x10);
    ByteStepUnrolled(0xEC01, 0x90);
  }

  lemma Vector5Tail()
    ensures ByteStep(0xAC2D, 0x21) == 0x05AC && ByteStep(0x05AC, 0x00) == 0x7D05 && ByteStep(0x7D05, 0x0A) == 0x043D
  {
    ByteStepUnrolled(0xAC2D, 0x21);
    ByteStepUnrolled(0x05AC, 0x00);
    ByteStepUnrolled(0x7D05, 0x0A);
  }

  lemma RegisterVector5()
    ensures Register([0x01, 0x10, 0x90, 0x21, 0x00, 0x0A]) == 0x043D
  {
    Vector5Head();
    Vector5Tail();
    FoldThree(0xFFFF, 0x01, 0x10, 0x90, 0x807E, 0xEC01, 0xAC2D, [0x21, 0x00, 0x0A]);
    FoldThree(0xAC2D, 0x21, 0x00, 0x0A, 0x05AC, 0x7D05, 0x043D, []);
    assert [0x01, 0x10, 0x90, 0x21, 0x00, 0x0A] == [0x01, 0x10, 0x90] + [0x21, 0x00, 0x0A];
    assert [0x21, 0x00, 0x0A] == [0x21, 0x00, 0x0A] + [];
  }

  /** Reference vector: the acknowledgement of a ten-register write at 0x9021. */
  lemma Vector5()
    ensures Checksum([0x01, 0x10, 0x90, 0x21, 0x00, 0x0A]) == [0x3D, 0x04]
  {
    RegisterVector5();
    ChecksumOfRegister([0x01, 0x10, 0x90, 0x21, 0x00, 0x0A], 0x043D);
  }
}
