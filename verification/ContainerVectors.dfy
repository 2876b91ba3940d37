/** Known answers: a published XTEA vector, and the head of the feature file the repository ships. */
module ContainerVectors {
  import opened MachineWords
  import opened Container

  lemma NextRound(key: Key, b: Block, sum: word, n: nat, next: Block, more: word)
    requires n > 0 && Round(key, b, sum) == next && Add(sum, DELTA) == more
    ensures Rounds(key, b, sum, n) == Rounds(key, next, more, n - 1)
  {
    hide Round, Add;
  }

  // ---------- a published vector ----------

  const PUBLISHED_KEY := Key(0x00010203, 0x04050607, 0x08090a0b, 0x0c0d0e0f)

  lemma PublishedFirst()
    ensures Rounds(PUBLISHED_KEY, Block(0x41424344, 0x45464748), 0, 32) ==
            Rounds(PUBLISHED_KEY, Block(0x8f65016f, 0xce368fe5), 0xf1bbcdc8, 24)
  {
    hide Rounds;
    NextRound(PUBLISHED_KEY, Block(0x41424344, 0x45464748), 0, 32, Block(0xdcd7cf45, 0x477ce5ef), 0x9e3779b9);
    NextRound(PUBLISHED_KEY, Block(0xdcd7cf45, 0x477ce5ef), 0x9e3779b9, 31, Block(0xfc26af53, 0xcd4278cf), 0x3c6ef372);
    NextRound(PUBLISHED_KEY, Block(0xfc26af53, 0xcd4278cf), 0x3c6ef372, 30, Block(0xd80e94cb, 0x4ddf38a2), 0xdaa66d2b);
    NextRound(PUBLISHED_KEY, Block(0xd80e94cb, 0x4ddf38a2), 0xdaa66d2b, 29, Block(0xa3de6c88, 0xf1e7792d), 0x78dde6e4);
    NextRound(PUBLISHED_KEY, Block(0xa3de6c88, 0xf1e7792d), 0x78dde6e4, 28, Block(0x171d3729, 0x91862a1f), 0x1715609d);
    NextRound(PUBLISHED_KEY, Block(0x171d3729, 0x91862a1f), 0x1715609d, 27, Block(0xcc8c1344, 0xebeeaa9a), 0xb54cda56);
    NextRound(PUBLISHED_KEY, Block(0xcc8c1344, 0xebeeaa9a), 0xb54cda56, 26, Block(0xe57d7733, 0x59e5fc40), 0x5384540f);
    NextRound(PUBLISHED_KEY, Block(0xe57d7733, 0x59e5fc40), 0x5384540f, 25, Block(0x8f65016f, 0xce368fe5), 0xf1bbcdc8);
  }

  lemma PublishedSecond()
    ensures Rounds(PUBLISHED_KEY, Block(0x8f65016f, 0xce368fe5), 0xf1bbcdc8, 24) ==
            Rounds(PUBLISHED_KEY, Block(0xdea0b0b4, 0x0966b066), 0xe3779b90, 16)
  {
    hide Rounds;
    NextRound(PUBLISHED_KEY, Block(0x8f65016f, 0xce368fe5), 0xf1bbcdc8, 24, Block(0xd258174e, 0x48d61211), 0x8ff34781);
    NextRound(PUBLISHED_KEY, Block(0xd258174e, 0x48d61211), 0x8ff34781, 23, Block(0x165e0567, 0x9e717b10), 0x2e2ac13a);
    NextRound(PUBLISHED_KEY, Block(0x165e0567, 0x9e717b10), 0x2e2ac13a, 22, Block(0xcac48414, 0x4aff1b86), 0xcc623af3);
    NextRound(PUBLISHED_KEY, Block(0xcac48414, 0x4aff1b86), 0xcc623af3, 21, Block(0xeb8e9954, 0x24e5dfef), 0x6a99b4ac);
    NextRound(PUBLISHED_KEY, Block(0xeb8e9954, 0x24e5dfef), 0x6a99b4ac, 20, Block(0x0a88b2a5, 0xe4a3f5f5), 0x08d12e65);
    NextRound(PUBLISHED_KEY, Block(0x0a88b2a5, 0xe4a3f5f5), 0x08d12e65, 19, Block(0x47f0b53d, 0x52cc1b88), 0xa708a81e);
    NextRound(PUBLISHED_KEY, Block(0x47f0b53d, 0x52cc1b88), 0xa708a81e, 18, Block(0x7622f70a, 0xe54c9980), 0x454021d7);
    NextRound(PUBLISHED_KEY, Block(0x7622f70a, 0xe54c9980), 0x454021d7, 17, Block(0xdea0b0b4, 0x0966b066), 0xe3779b90);
  }

  lemma PublishedThird()
    ensures Rounds(PUBLISHED_KEY, Block(0xdea0b0b4, 0x0966b066), 0xe3779b90, 16) ==
            Rounds(PUBLISHED_KEY, Block(0xc1cdccfe, 0x6f593666), 0xd5336958, 8)
  {
    hide Rounds;
    NextRound(PUBLISHED_KEY, Block(0xdea0b0b4, 0x0966b066), 0xe3779b90, 16, Block(0x5b9f2a8e, 0xa8dc137c), 0x81af1549);
    NextRound(PUBLISHED_KEY, Block(0x5b9f2a8e, 0xa8dc137c), 0x81af1549, 15, Block(0x10771c15, 0xe45e1448), 0x1fe68f02);
    NextRound(PUBLISHED_KEY, Block(0x10771c15, 0xe45e1448), 0x1fe68f02, 14, Block(0x11456d7c, 0xc85f792d), 0xbe1e08bb);
    NextRound(PUBLISHED_KEY, Block(0x11456d7c, 0xc85f792d), 0xbe1e08bb, 13, Block(0x97856208, 0x1099631c), 0x5c558274);
    NextRound(PUBLISHED_KEY, Block(0x97856208, 0x1099631c), 0x5c558274, 12, Block(0xdd803b8b, 0xcb8f61e7), 0xfa8cfc2d);
    NextRound(PUBLISHED_KEY, Block(0xdd803b8b, 0xcb8f61e7), 0xfa8cfc2d, 11, Block(0x522c00dd, 0x9e3f7329), 0x98c475e6);
    NextRound(PUBLISHED_KEY, Block(0x522c00dd, 0x9e3f7329), 0x98c475e6, 10, Block(0x77b744a0, 0x69c1348c), 0x36fbef9f);
    NextRound(PUBLISHED_KEY, Block(0x77b744a0, 0x69c1348c), 0x36fbef9f, 9, Block(0xc1cdccfe, 0x6f593666), 0xd5336958);
  }

  lemma PublishedLast()
    ensures Rounds(PUBLISHED_KEY, Block(0xc1cdccfe, 0x6f593666), 0xd5336958, 8) ==
            Rounds(PUBLISHED_KEY, Block(0x497df3d0, 0x72612cb5), 0xc6ef3720, 0)
  {
    hide Rounds;
    NextRound(PUBLISHED_KEY, Block(0xc1cdccfe, 0x6f593666), 0xd5336958, 8, Block(0x75445a60, 0x2db1708d), 0x736ae311);
    NextRound(PUBLISHED_KEY, Block(0x75445a60, 0x2db1708d), 0x736ae311, 7, Block(0xf4887559, 0x8bb651d7), 0x11a25cca);
    NextRound(PUBLISHED_KEY, Block(0xf4887559, 0x8bb651d7), 0x11a25cca, 6, Block(0x47ccdc59, 0xfcd8f11c), 0xafd9d683);
    NextRound(PUBLISHED_KEY, Block(0x47ccdc59, 0xfcd8f11c), 0xafd9d683, 5, Block(0xc471004f, 0x5097c822), 0x4e11503c);
    NextRound(PUBLISHED_KEY, Block(0xc471004f, 0x5097c822), 0x4e11503c, 4, Block(0xd6f3570b, 0x00d35711), 0xec48c9f5);
    NextRound(PUBLISHED_KEY, Block(0xd6f3570b, 0x00d35711), 0xec48c9f5, 3, Block(0xd53de450, 0xa10822d4), 0x8a8043ae);
    NextRound(PUBLISHED_KEY, Block(0xd53de450, 0xa10822d4), 0x8a8043ae, 2, Block(0xf959a6e3, 0x6076a570), 0x28b7bd67);
    NextRound(PUBLISHED_KEY, Block(0xf959a6e3, 0x6076a570), 0x28b7bd67, 1, Block(0x497df3d0, 0x72612cb5), 0xc6ef3720);
  }

  /** The text "ABCDEFGH" under the key 00 01 02 up to 0f. */
  lemma PublishedVector()
    ensures EncryptWith(PUBLISHED_KEY, Block(0x41424344, 0x45464748)) == Block(0x497df3d0, 0x72612cb5)
  {
    hide Round;
    PublishedFirst();
    PublishedSecond();
    PublishedThird();
    PublishedLast();
  }

  // ---------- the shipped file ----------

  /** Header and first eight body bytes of `files/feature.bin`. */
  const SHIPPED_HEADER: seq<byte> :=
    [0x46, 0x57, 0x58, 0x42, 0x01, 0x01, 0x18, 0x00] + [0x39, 0x09, 0x00, 0x00, 0xc1, 0xba, 0x50, 0x54] +
    [0x18, 0x68, 0xcc, 0xe0, 0xdd, 0x7f, 0xc9, 0x94]

  const SHIPPED_BODY: seq<byte> := [0x8d, 0x52, 0x77, 0x5c, 0x3f, 0x11, 0x87, 0x4a]

  lemma ShippedFirst()
    ensures Rounds(FEATURE_KEY, Block(0xe0cc6818, 0x94c97fdd), 0, 32) ==
            Rounds(FEATURE_KEY, Block(0xba97d2d8, 0xfd5d8e71), 0xf1bbcdc8, 24)
  {
    hide Rounds;
    NextRound(FEATURE_KEY, Block(0xe0cc6818, 0x94c97fdd), 0, 32, Block(0x348387c2, 0x4bd8b2d6), 0x9e3779b9);
    NextRound(FEATURE_KEY, Block(0x348387c2, 0x4bd8b2d6), 0x9e3779b9, 31, Block(0x4ec45d39, 0x0d1de8ad), 0x3c6ef372);
    NextRound(FEATURE_KEY, Block(0x4ec45d39, 0x0d1de8ad), 0x3c6ef372, 30, Block(0x722d9260, 0xea46878b), 0xdaa66d2b);
    NextRound(FEATURE_KEY, Block(0x722d9260, 0xea46878b), 0xdaa66d2b, 29, Block(0xfb2caefc, 0xa2b0b0c1), 0x78dde6e4);
    NextRound(FEATURE_KEY, Block(0xfb2caefc, 0xa2b0b0c1), 0x78dde6e4, 28, Block(0xd411d9ce, 0x60601283), 0x1715609d);
    NextRound(FEATURE_KEY, Block(0xd411d9ce, 0x60601283), 0x1715609d, 27, Block(0xc3bfe886, 0x41e57c9f), 0xb54cda56);
    NextRound(FEATURE_KEY, Block(0xc3bfe886, 0x41e57c9f), 0xb54cda56, 26, Block(0xec652580, 0xfb29c74d), 0x5384540f);
    NextRound(FEATURE_KEY, Block(0xec652580, 0xfb29c74d), 0x5384540f, 25, Block(0xba97d2d8, 0xfd5d8e71), 0xf1bbcdc8);
  }

  lemma ShippedSecond()
    ensures Rounds(FEATURE_KEY, Block(0xba97d2d8, 0xfd5d8e71), 0xf1bbcdc8, 24) ==
            Rounds(FEATURE_KEY, Block(0xb90390b0, 0xbf5f8014), 0xe3779b90, 16)
  {
    hide Rounds;
    NextRound(FEATURE_KEY, Block(0xba97d2d8, 0xfd5d8e71), 0xf1bbcdc8, 24, Block(0x09204195, 0x81afbc44), 0x8ff34781);
    NextRound(FEATURE_KEY, Block(0x09204195, 0x81afbc44), 0x8ff34781, 23, Block(0xac2caafa, 0x505e5b6e), 0x2e2ac13a);
    NextRound(FEATURE_KEY, Block(0xac2caafa, 0x505e5b6e), 0x2e2ac13a, 22, Block(0x64e9817e, 0x95f1a6a8), 0xcc623af3);
    NextRound(FEATURE_KEY, Block(0x64e9817e, 0x95f1a6a8), 0xcc623af3, 21, Block(0x6b85998c, 0xa35517af), 0x6a99b4ac);
    NextRound(FEATURE_KEY, Block(0x6b85998c, 0xa35517af), 0x6a99b4ac, 20, Block(0x95cad13d, 0x349b2da0), 0x08d12e65);
    NextRound(FEATURE_KEY, Block(0x95cad13d, 0x349b2da0), 0x08d12e65, 19, Block(0x960403a7, 0x14e690d4), 0xa708a81e);
    NextRound(FEATURE_KEY, Block(0x960403a7, 0x14e690d4), 0xa708a81e, 18, Block(0xa1e7fe32, 0x7ebb214f), 0x454021d7);
    NextRound(FEATURE_KEY, Block(0xa1e7fe32, 0x7ebb214f), 0x454021d7, 17, Block(0xb90390b0, 0xbf5f8014), 0xe3779b90);
  }

  lemma ShippedThird()
    ensures Rounds(FEATURE_KEY, Block(0xb90390b0, 0xbf5f8014), 0xe3779b90, 16) ==
            Rounds(FEATURE_KEY, Block(0x6c964af1, 0xf63794f4), 0xd5336958, 8)
  {
    hide Rounds;
    NextRound(FEATURE_KEY, Block(0xb90390b0, 0xbf5f8014), 0xe3779b90, 16, Block(0x96a54915, 0x06da1925), 0x81af1549);
    NextRound(FEATURE_KEY, Block(0x96a54915, 0x06da1925), 0x81af1549, 15, Block(0x17b9fb0a, 0x081b37ab), 0x1fe68f02);
    NextRound(FEATURE_KEY, Block(0x17b9fb0a, 0x081b37ab), 0x1fe68f02, 14, Block(0x82f5c757, 0xa7b0b6c7), 0xbe1e08bb);
    NextRound(FEATURE_KEY, Block(0x82f5c757, 0xa7b0b6c7), 0xbe1e08bb, 13, Block(0x50068bed, 0x60ff7130), 0x5c558274);
    NextRound(FEATURE_KEY, Block(0x50068bed, 0x60ff7130), 0x5c558274, 12, Block(0xd6588199, 0x7df479e8), 0xfa8cfc2d);
    NextRound(FEATURE_KEY, Block(0xd6588199, 0x7df479e8), 0xfa8cfc2d, 11, Block(0x0b37e7b1, 0x6241cfef), 0x98c475e6);
    NextRound(FEATURE_KEY, Block(0x0b37e7b1, 0x6241cfef), 0x98c475e6, 10, Block(0xde7a2558, 0x77bb3e92), 0x36fbef9f);
    NextRound(FEATURE_KEY, Block(0xde7a2558, 0x77bb3e92), 0x36fbef9f, 9, Block(0x6c964af1, 0xf63794f4), 0xd5336958);
  }

  lemma ShippedLast()
    ensures Rounds(FEATURE_KEY, Block(0x6c964af1, 0xf63794f4), 0xd5336958, 8) ==
            Rounds(FEATURE_KEY, Block(0x2e1224ae, 0x24e8784c), 0xc6ef3720, 0)
  {
    hide Rounds;
    NextRound(FEATURE_KEY, Block(0x6c964af1, 0xf63794f4), 0xd5336958, 8, Block(0xac156513, 0x6932e88d), 0x736ae311);
    NextRound(FEATURE_KEY, Block(0xac156513, 0x6932e88d), 0x736ae311, 7, Block(0xcad11545, 0xb39632a2), 0x11a25cca);
    NextRound(FEATURE_KEY, Block(0xcad11545, 0xb39632a2), 0x11a25cca, 6, Block(0xed36402f, 0x6401e1f8), 0xafd9d683);
    NextRound(FEATURE_KEY, Block(0xed36402f, 0x6401e1f8), 0xafd9d683, 5, Block(0x6ac30393, 0x7978de88), 0x4e11503c);
    NextRound(FEATURE_KEY, Block(0x6ac30393, 0x7978de88), 0x4e11503c, 4, Block(0x3ba578b4, 0x22486656), 0xec48c9f5);
    NextRound(FEATURE_KEY, Block(0x3ba578b4, 0x22486656), 0xec48c9f5, 3, Block(0x53c88b13, 0xaa5c538a), 0x8a8043ae);
    NextRound(FEATURE_KEY, Block(0x53c88b13, 0xaa5c538a), 0x8a8043ae, 2, Block(0x5503717a, 0x9e8fb8ec), 0x28b7bd67);
    NextRound(FEATURE_KEY, Block(0x5503717a, 0x9e8fb8ec), 0x28b7bd67, 1, Block(0x2e1224ae, 0x24e8784c), 0xc6ef3720);
  }

  lemma ShippedBlock()
    ensures Encrypt(Block(0xe0cc6818, 0x94c97fdd)) == Block(0x2e1224ae, 0x24e8784c)
  {
    hide Round;
    ShippedFirst();
    ShippedSecond();
    ShippedThird();
    ShippedLast();
  }

  lemma ShippedFields()
    ensures |SHIPPED_HEADER| == HEADER && GoodPreamble(SHIPPED_HEADER)
    ensures LengthField(SHIPPED_HEADER) == 2361 && CrcField(SHIPPED_HEADER) == 0x5450bac1
    ensures Low(NonceField(SHIPPED_HEADER)) == 0xe0cc6818 && High(NonceField(SHIPPED_HEADER)) == 0x94c97fdd
  {
    hide GetLe16, GetLe32, Low, High, JoinLong;
    ShippedSlices();
    ShippedWords();
    ShippedNonce();
    var nonce := SHIPPED_HEADER[16..24];
    assert nonce[..4] == [0x18, 0x68, 0xcc, 0xe0] && nonce[4..] == [0xdd, 0x7f, 0xc9, 0x94];
  }

  lemma ShippedSlices()
    ensures |SHIPPED_HEADER| == HEADER && SHIPPED_HEADER[..4] == MAGIC
    ensures SHIPPED_HEADER[4] == 1 && SHIPPED_HEADER[5] == 1 && SHIPPED_HEADER[6..8] == [24, 0]
    ensures SHIPPED_HEADER[8..12] == [0x39, 0x09, 0x00, 0x00] && SHIPPED_HEADER[12..16] == [0xc1, 0xba, 0x50, 0x54]
    ensures SHIPPED_HEADER[16..24] == [0x18, 0x68, 0xcc, 0xe0, 0xdd, 0x7f, 0xc9, 0x94]
  {
  }

  lemma ShippedWords()
    ensures GetLe16([24, 0]) == 24
    ensures GetLe32([0x39, 0x09, 0x00, 0x00]) == 2361 && GetLe32([0xc1, 0xba, 0x50, 0x54]) == 0x5450bac1
    ensures GetLe32([0x18, 0x68, 0xcc, 0xe0]) == 0xe0cc6818 && GetLe32([0xdd, 0x7f, 0xc9, 0x94]) == 0x94c97fdd
  {
  }

  lemma ShippedNonce()
    ensures Low(JoinLong(0xe0cc6818, 0x94c97fdd)) == 0xe0cc6818
    ensures High(JoinLong(0xe0cc6818, 0x94c97fdd)) == 0x94c97fdd
  {
  }

  /** "#version": under the header's nonce the shipped file starts like the feature list it holds. */
  lemma ShippedFileDecrypts()
    ensures Crypt(SHIPPED_BODY, NonceField(SHIPPED_HEADER)) == [0x23, 0x76, 0x65, 0x72, 0x73, 0x69, 0x6f, 0x6e]
  {
    hide Crypt, StreamBlock, NonceField, GoodPreamble, LengthField, CrcField, XorByte;
    ShippedFields();
    ShippedStream(NonceField(SHIPPED_HEADER));
    FirstBlock(SHIPPED_BODY, NonceField(SHIPPED_HEADER));
    ShippedXors();
  }

  lemma ShippedStream(nonce: long)
    requires Low(nonce) == 0xe0cc6818 && High(nonce) == 0x94c97fdd
    ensures StreamBlock(nonce) == [0xae, 0x24, 0x12, 0x2e, 0x4c, 0x78, 0xe8, 0x24]
  {
    hide Encrypt, Low, High;
    ShippedBlock();
  }

  /** Eight bytes are xored with the block of the nonce itself. */
  lemma FirstBlock(data: seq<byte>, nonce: long)
    requires |data| == 8
    ensures forall k :: 0 <= k < 8 ==> Crypt(data, nonce)[k] == XorByte(data[k], StreamBlock(nonce)[k])
  {
    hide StreamBlock, XorByte;
    assert Counter(nonce, 0) == nonce;
    forall k | 0 <= k < 8 ensures Crypt(data, nonce)[k] == XorByte(data[k], StreamBlock(nonce)[k]) {
      assert k / 8 == 0 && k % 8 == k;
    }
  }

  lemma ShippedXors()
    ensures XorByte(0x8d, 0xae) == 0x23
    ensures XorByte(0x52, 0x24) == 0x76
    ensures XorByte(0x77, 0x12) == 0x65
    ensures XorByte(0x5c, 0x2e) == 0x72
    ensures XorByte(0x3f, 0x4c) == 0x73
    ensures XorByte(0x11, 0x78) == 0x69
    ensures XorByte(0x87, 0xe8) == 0x6f
    ensures XorByte(0x4a, 0x24) == 0x6e
  {
  }
}
