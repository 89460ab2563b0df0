/** Test case 2 of RFC 4231, which tests/test_auth.cpp checks the firmware's HMAC
    against: it holds of the specification, so of every function that goes into
    it, with the pads, the order of the two hashes and the order of bytes. */
module Rfc4231 {
  import opened Sha256Spec
  import opened Padding
  import opened Sha256
  import opened Hmac
  import opened KnownRounds

  /** "Jefe" */
  const KEY: seq<byte> := [0x4a, 0x65, 0x66, 0x65]

  /** "what do ya want " and "for nothing?" */
  const HEAD: seq<byte> := [0x77, 0x68, 0x61, 0x74, 0x20, 0x64, 0x6f, 0x20, 0x79, 0x61, 0x20, 0x77, 0x61, 0x6e, 0x74, 0x20]
  const TAIL: seq<byte> := [0x66, 0x6f, 0x72, 0x20, 0x6e, 0x6f, 0x74, 0x68, 0x69, 0x6e, 0x67, 0x3f]
  const MESSAGE: seq<byte> := HEAD + TAIL

  const MAC: seq<byte> := [
    0x5b, 0xdc, 0xc1, 0x46, 0xbf, 0x60, 0x75, 0x4e, 0x6a, 0x04, 0x24, 0x26, 0x08, 0x95, 0x75, 0xc7,
    0x5a, 0x00, 0x3f, 0x08, 0x9d, 0x27, 0x39, 0x83, 0x9d, 0xec, 0x58, 0xb9, 0x64, 0xec, 0x38, 0x43]

  // ---------------------------------------------------------------------------
  // The four compressions

  /** The key under the inner pad. */
  lemma InnerKeyBlock(m: Block)
    requires KnownW(m, 0, 0x7c535053, 0x36363636, 0x36363636, 0x36363636, 0x36363636, 0x36363636, 0x36363636, 0x36363636)
    requires KnownW(m, 8, 0x36363636, 0x36363636, 0x36363636, 0x36363636, 0x36363636, 0x36363636, 0x36363636, 0x36363636)
    ensures Compress(Regs(0x6a09e667, 0xbb67ae85, 0x3c6ef372, 0xa54ff53a, 0x510e527f, 0x9b05688c, 0x1f83d9ab, 0x5be0cd19), m)
         == Regs(0x655da7fa, 0xcc434b37, 0x5a1cd5cb, 0x0692ee0e, 0xa47a23d3, 0x4c3af449, 0xdba21ae2, 0x78c7500c)
  {
    hide Rounds, Compress, Reached, KnownK, KnownW;
    K0();
    K16();
    K32();
    K48();
    NoRounds(0x6a09e667, 0xbb67ae85, 0x3c6ef372, 0xa54ff53a, 0x510e527f, 0x9b05688c, 0x1f83d9ab, 0x5be0cd19, m);
    NextWords(m, 0,
              0x7c535053, 0x36363636, 0x36363636, 0x36363636, 0x36363636, 0x36363636, 0x36363636, 0x36363636,
              0x36363636, 0x36363636, 0x36363636, 0x36363636, 0x36363636, 0x36363636, 0x36363636, 0x36363636,
              0x7780fe00, 0x3163e3e3, 0xb47168a2, 0xe11539f8, 0xecfba47f, 0x8f8ebd79, 0xfa1ec89e, 0x1e0e70f6);
    NextWords(m, 8,
              0x36363636, 0x36363636, 0x36363636, 0x36363636, 0x36363636, 0x36363636, 0x36363636, 0x36363636,
              0x7780fe00, 0x3163e3e3, 0xb47168a2, 0xe11539f8, 0xecfba47f, 0x8f8ebd79, 0xfa1ec89e, 0x1e0e70f6,
              0x0c23673e, 0xc8311559, 0xddee66a1, 0xb28ed337, 0xac9fc9a9, 0xcb4db29d, 0x59369281, 0xe32830f3);
    NextWords(m, 16,
              0x7780fe00, 0x3163e3e3, 0xb47168a2, 0xe11539f8, 0xecfba47f, 0x8f8ebd79, 0xfa1ec89e, 0x1e0e70f6,
              0x0c23673e, 0xc8311559, 0xddee66a1, 0xb28ed337, 0xac9fc9a9, 0xcb4db29d, 0x59369281, 0xe32830f3,
              0x136f5555, 0x377ff55a, 0x4aa3e0f1, 0x9d19ff47, 0x926e254f, 0x39c2254f, 0x2731f000, 0x2bd17abc);
    NextWords(m, 24,
              0x0c23673e, 0xc8311559, 0xddee66a1, 0xb28ed337, 0xac9fc9a9, 0xcb4db29d, 0x59369281, 0xe32830f3,
              0x136f5555, 0x377ff55a, 0x4aa3e0f1, 0x9d19ff47, 0x926e254f, 0x39c2254f, 0x2731f000, 0x2bd17abc,
              0xf96d6a27, 0x6686c278, 0x616aea0c, 0xb308442a, 0x5d1a34ff, 0xca7159c9, 0xd99ebf95, 0xe1a34c15);
    NextWords(m, 32,
              0x136f5555, 0x377ff55a, 0x4aa3e0f1, 0x9d19ff47, 0x926e254f, 0x39c2254f, 0x2731f000, 0x2bd17abc,
              0xf96d6a27, 0x6686c278, 0x616aea0c, 0xb308442a, 0x5d1a34ff, 0xca7159c9, 0xd99ebf95, 0xe1a34c15,
              0x51dbd4be, 0x7c986d13, 0x71d1a48e, 0x39a42882, 0x53c21066, 0x1d686bfc, 0x7682d688, 0xc08ab048);
    NextWords(m, 40,
              0xf96d6a27, 0x6686c278, 0x616aea0c, 0xb308442a, 0x5d1a34ff, 0xca7159c9, 0xd99ebf95, 0xe1a34c15,
              0x51dbd4be, 0x7c986d13, 0x71d1a48e, 0x39a42882, 0x53c21066, 0x1d686bfc, 0x7682d688, 0xc08ab048,
              0xf41238c8, 0x94e252cd, 0x485d2762, 0xe20b3ab9, 0x8e7ad67d, 0xda8d1cc5, 0xb0eeaf96, 0x8739d375);
    EightRounds(Regs(0x6a09e667, 0xbb67ae85, 0x3c6ef372, 0xa54ff53a, 0x510e527f, 0x9b05688c, 0x1f83d9ab, 0x5be0cd19),
                m, 0,
                0xa54ff53a, 0x3c6ef372, 0xbb67ae85, 0x6a09e667, 0x785bd8a0, 0x983307d2,
                0xe561c53c, 0x8c549b2f, 0x53632755, 0x34561afc, 0x58778f6a, 0x16fcd1de,
                0x5be0cd19, 0x1f83d9ab, 0x9b05688c, 0x510e527f, 0x151b32f5, 0xa5de5788,
                0xd42662d3, 0x663f1212, 0xd7477e59, 0x24389410, 0xa6e3644b, 0x1f67d48a,
                0x428a2f98, 0x71374491, 0xb5c0fbcf, 0xe9b5dba5, 0x3956c25b, 0x59f111f1, 0x923f82a4, 0xab1c5ed5,
                0x7c535053, 0x36363636, 0x36363636, 0x36363636, 0x36363636, 0x36363636, 0x36363636, 0x36363636);
    EightRounds(Regs(0x6a09e667, 0xbb67ae85, 0x3c6ef372, 0xa54ff53a, 0x510e527f, 0x9b05688c, 0x1f83d9ab, 0x5be0cd19),
                m, 8,
                0x53632755, 0x34561afc, 0x58778f6a, 0x16fcd1de, 0x235471b0, 0xb0e25b7e,
                0xc29f7823, 0x1b918ad1, 0x07f487ee, 0x0aae579f, 0x32f91b02, 0xd8a297b3,
                0xd7477e59, 0x24389410, 0xa6e3644b, 0x1f67d48a, 0x6a38013d, 0xfe30de3e,
                0xe981ca81, 0x435e9d84, 0x426da4d5, 0x4b6881fa, 0x22d64e87, 0x40743133,
                0xd807aa98, 0x12835b01, 0x243185be, 0x550c7dc3, 0x72be5d74, 0x80deb1fe, 0x9bdc06a7, 0xc19bf174,
                0x36363636, 0x36363636, 0x36363636, 0x36363636, 0x36363636, 0x36363636, 0x36363636, 0x36363636);
    EightRounds(Regs(0x6a09e667, 0xbb67ae85, 0x3c6ef372, 0xa54ff53a, 0x510e527f, 0x9b05688c, 0x1f83d9ab, 0x5be0cd19),
                m, 16,
                0x07f487ee, 0x0aae579f, 0x32f91b02, 0xd8a297b3, 0x57ea9c70, 0x0268f9a1,
                0x3dbc498e, 0xd9507501, 0xc5318371, 0x062e40f6, 0x17e2b319, 0xad9d4643,
                0x426da4d5, 0x4b6881fa, 0x22d64e87, 0x40743133, 0x834c5d31, 0x5e22d8f7,
                0xef561db9, 0x67d16b9d, 0x6414d5ba, 0x7e976b52, 0x513641df, 0x27cec047,
                0xe49b69c1, 0xefbe4786, 0x0fc19dc6, 0x240ca1cc, 0x2de92c6f, 0x4a7484aa, 0x5cb0a9dc, 0x76f988da,
                0x7780fe00, 0x3163e3e3, 0xb47168a2, 0xe11539f8, 0xecfba47f, 0x8f8ebd79, 0xfa1ec89e, 0x1e0e70f6);
    EightRounds(Regs(0x6a09e667, 0xbb67ae85, 0x3c6ef372, 0xa54ff53a, 0x510e527f, 0x9b05688c, 0x1f83d9ab, 0x5be0cd19),
                m, 24,
                0xc5318371, 0x062e40f6, 0x17e2b319, 0xad9d4643, 0x08bb510a, 0x7c2a0dc2,
                0xd2451e37, 0x0268fa1b, 0xedf2ce47, 0xf09b0708, 0x078f5fb6, 0xeaa1ecb4,
                0x6414d5ba, 0x7e976b52, 0x513641df, 0x27cec047, 0x19db5e5c, 0x8d6241f3,
                0x643e203e, 0x46841870, 0xf09bbf76, 0x67e97303, 0x905c490a, 0xc6426440,
                0x983e5152, 0xa831c66d, 0xb00327c8, 0xbf597fc7, 0xc6e00bf3, 0xd5a79147, 0x06ca6351, 0x14292967,
                0x0c23673e, 0xc8311559, 0xddee66a1, 0xb28ed337, 0xac9fc9a9, 0xcb4db29d, 0x59369281, 0xe32830f3);
    EightRounds(Regs(0x6a09e667, 0xbb67ae85, 0x3c6ef372, 0xa54ff53a, 0x510e527f, 0x9b05688c, 0x1f83d9ab, 0x5be0cd19),
                m, 32,
                0xedf2ce47, 0xf09b0708, 0x078f5fb6, 0xeaa1ecb4, 0x3328a14d, 0x6d2e4564,
                0x83963ea4, 0x68029891, 0x1d8a1947, 0x67625ada, 0x3b14694f, 0xa79b91d0,
                0xf09bbf76, 0x67e97303, 0x905c490a, 0xc6426440, 0x65d22258, 0x55f8d8de,
                0x967f4f57, 0xa23b5ecb, 0x52c2fa60, 0xa5cf1142, 0x8b47cae7, 0xfb81d2f6,
                0x27b70a85, 0x2e1b2138, 0x4d2c6dfc, 0x53380d13, 0x650a7354, 0x766a0abb, 0x81c2c92e, 0x92722c85,
                0x136f5555, 0x377ff55a, 0x4aa3e0f1, 0x9d19ff47, 0x926e254f, 0x39c2254f, 0x2731f000, 0x2bd17abc);
    EightRounds(Regs(0x6a09e667, 0xbb67ae85, 0x3c6ef372, 0xa54ff53a, 0x510e527f, 0x9b05688c, 0x1f83d9ab, 0x5be0cd19),
                m, 40,
                0x1d8a1947, 0x67625ada, 0x3b14694f, 0xa79b91d0, 0xb44f112a, 0x09f97f87,
                0x73144f72, 0x232d24d1, 0x5cd1d6ed, 0xb803f3e1, 0x6531bcdc, 0x750ed7b4,
                0x52c2fa60, 0xa5cf1142, 0x8b47cae7, 0xfb81d2f6, 0xe1a23661, 0xa239fc34,
                0x2c959b32, 0xe30014cd, 0x13126373, 0xa7e30631, 0xa1815b66, 0xe2cdce6a,
                0xa2bfe8a1, 0xa81a664b, 0xc24b8b70, 0xc76c51a3, 0xd192e819, 0xd6990624, 0xf40e3585, 0x106aa070,
                0xf96d6a27, 0x6686c278, 0x616aea0c, 0xb308442a, 0x5d1a34ff, 0xca7159c9, 0xd99ebf95, 0xe1a34c15);
    EightRounds(Regs(0x6a09e667, 0xbb67ae85, 0x3c6ef372, 0xa54ff53a, 0x510e527f, 0x9b05688c, 0x1f83d9ab, 0x5be0cd19),
                m, 48,
                0x5cd1d6ed, 0xb803f3e1, 0x6531bcdc, 0x750ed7b4, 0x352963ee, 0xbd49faae,
                0x9d2923ec, 0x7875932a, 0xfc2f1aae, 0x3ac20327, 0x80be9491, 0xc5a25619,
                0x13126373, 0xa7e30631, 0xa1815b66, 0xe2cdce6a, 0x81387698, 0xc86fad2f,
                0x6f83bf09, 0x93b9f32a, 0xa2ecbc67, 0x25c84e04, 0xc5fadb1d, 0x4677efca,
                0x19a4c116, 0x1e376c08, 0x2748774c, 0x34b0bcb5, 0x391c0cb3, 0x4ed8aa4a, 0x5b9cca4f, 0x682e6ff3,
                0x51dbd4be, 0x7c986d13, 0x71d1a48e, 0x39a42882, 0x53c21066, 0x1d686bfc, 0x7682d688, 0xc08ab048);
    EightRounds(Regs(0x6a09e667, 0xbb67ae85, 0x3c6ef372, 0xa54ff53a, 0x510e527f, 0x9b05688c, 0x1f83d9ab, 0x5be0cd19),
                m, 56,
                0xfc2f1aae, 0x3ac20327, 0x80be9491, 0xc5a25619, 0x26d12d1d, 0xecaa3749,
                0xfc2dd2ee, 0x79b8b244, 0x6142f8d4, 0x1dade259, 0x10db9cb2, 0xfb53c193,
                0xa2ecbc67, 0x25c84e04, 0xc5fadb1d, 0x4677efca, 0x595f5238, 0x3cd11d02,
                0x2e916135, 0xb37aa2eb, 0x1ce682f3, 0xbc1e4137, 0xb1358bbd, 0x536bd154,
                0x748f82ee, 0x78a5636f, 0x84c87814, 0x8cc70208, 0x90befffa, 0xa4506ceb, 0xbef9a3f7, 0xc67178f2,
                0xf41238c8, 0x94e252cd, 0x485d2762, 0xe20b3ab9, 0x8e7ad67d, 0xda8d1cc5, 0xb0eeaf96, 0x8739d375);
    ReachedIs(Regs(0x6a09e667, 0xbb67ae85, 0x3c6ef372, 0xa54ff53a, 0x510e527f, 0x9b05688c, 0x1f83d9ab, 0x5be0cd19), m,
              0x6142f8d4, 0x1dade259, 0x10db9cb2, 0xfb53c193, 0x1ce682f3, 0xbc1e4137, 0xb1358bbd, 0x536bd154);
    AllRounds(Regs(0x6a09e667, 0xbb67ae85, 0x3c6ef372, 0xa54ff53a, 0x510e527f, 0x9b05688c, 0x1f83d9ab, 0x5be0cd19),
              Regs(0xfb53c193, 0x10db9cb2, 0x1dade259, 0x6142f8d4, 0x536bd154, 0xb1358bbd, 0xbc1e4137, 0x1ce682f3),
              Regs(0x655da7fa, 0xcc434b37, 0x5a1cd5cb, 0x0692ee0e, 0xa47a23d3, 0x4c3af449, 0xdba21ae2, 0x78c7500c), m);
  }

  /** The message, padded. */
  lemma MessageBlock(m: Block)
    requires KnownW(m, 0, 0x77686174, 0x20646f20, 0x79612077, 0x616e7420, 0x666f7220, 0x6e6f7468, 0x696e673f, 0x80000000)
    requires KnownW(m, 8, 0x00000000, 0x00000000, 0x00000000, 0x00000000, 0x00000000, 0x00000000, 0x00000000, 0x000002e0)
    ensures Compress(Regs(0x655da7fa, 0xcc434b37, 0x5a1cd5cb, 0x0692ee0e, 0xa47a23d3, 0x4c3af449, 0xdba21ae2, 0x78c7500c), m)
         == Regs(0xa2e48586, 0x3d27f9d8, 0x64ac8d80, 0x2432a1ed, 0x477d8c4c, 0x6f349d16, 0xd4e7e917, 0xc629cad7)
  {
    hide Rounds, Compress, Reached, KnownK, KnownW;
    K0();
    K16();
    K32();
    K48();
    NoRounds(0x655da7fa, 0xcc434b37, 0x5a1cd5cb, 0x0692ee0e, 0xa47a23d3, 0x4c3af449, 0xdba21ae2, 0x78c7500c, m);
    NextWords(m, 0,
              0x77686174, 0x20646f20, 0x79612077, 0x616e7420, 0x666f7220, 0x6e6f7468, 0x696e673f, 0x80000000,
              0x00000000, 0x00000000, 0x00000000, 0x00000000, 0x00000000, 0x00000000, 0x00000000, 0x000002e0,
              0xd6ecae97, 0xcb53a736, 0x0df4d52e, 0x99470585, 0x56ac588f, 0xbaf46d24, 0x21b274b4, 0x120525d6);
    NextWords(m, 8,
              0x00000000, 0x00000000, 0x00000000, 0x00000000, 0x00000000, 0x00000000, 0x00000000, 0x000002e0,
              0xd6ecae97, 0xcb53a736, 0x0df4d52e, 0x99470585, 0x56ac588f, 0xbaf46d24, 0x21b274b4, 0x120525d6,
              0x40189fa8, 0x444a1f39, 0xf57833ad, 0xa316f0ba, 0xda928743, 0xc8153509, 0xe63c58e9, 0x9b063401);
    NextWords(m, 16,
              0xd6ecae97, 0xcb53a736, 0x0df4d52e, 0x99470585, 0x56ac588f, 0xbaf46d24, 0x21b274b4, 0x120525d6,
              0x40189fa8, 0x444a1f39, 0xf57833ad, 0xa316f0ba, 0xda928743, 0xc8153509, 0xe63c58e9, 0x9b063401,
              0x5fb8701b, 0x06610ac3, 0xc09ff909, 0x1a6d0e91, 0x67b9d8fd, 0xb9251d58, 0x7b42c482, 0x1e4fcbae);
    NextWords(m, 24,
              0x40189fa8, 0x444a1f39, 0xf57833ad, 0xa316f0ba, 0xda928743, 0xc8153509, 0xe63c58e9, 0x9b063401,
              0x5fb8701b, 0x06610ac3, 0xc09ff909, 0x1a6d0e91, 0x67b9d8fd, 0xb9251d58, 0x7b42c482, 0x1e4fcbae,
              0x7f18d3ae, 0x6b3e02aa, 0x60acd3cc, 0x09230471, 0xcf103ae0, 0xff3e7122, 0xbc028b24, 0x31f8a0a0);
    NextWords(m, 32,
              0x5fb8701b, 0x06610ac3, 0xc09ff909, 0x1a6d0e91, 0x67b9d8fd, 0xb9251d58, 0x7b42c482, 0x1e4fcbae,
              0x7f18d3ae, 0x6b3e02aa, 0x60acd3cc, 0x09230471, 0xcf103ae0, 0xff3e7122, 0xbc028b24, 0x31f8a0a0,
              0xa4405ebd, 0xa126f06e, 0x5140b18d, 0x0f9727bc, 0x96dc649b, 0xa7105035, 0x1955553f, 0x4cbc81fd);
    NextWords(m, 40,
              0x7f18d3ae, 0x6b3e02aa, 0x60acd3cc, 0x09230471, 0xcf103ae0, 0xff3e7122, 0xbc028b24, 0x31f8a0a0,
              0xa4405ebd, 0xa126f06e, 0x5140b18d, 0x0f9727bc, 0x96dc649b, 0xa7105035, 0x1955553f, 0x4cbc81fd,
              0xf9992590, 0x2d78b115, 0x48b2660c, 0xc566eb38, 0xbc4719f4, 0xbd8f6578, 0xe71fceb9, 0x023dd359);
    EightRounds(Regs(0x655da7fa, 0xcc434b37, 0x5a1cd5cb, 0x0692ee0e, 0xa47a23d3, 0x4c3af449, 0xdba21ae2, 0x78c7500c),
                m, 0,
                0x0692ee0e, 0x5a1cd5cb, 0xcc434b37, 0x655da7fa, 0xb8e21a13, 0x481dac7b,
                0x62f20e4d, 0x238af6c2, 0xf5d4dabb, 0x567dcdf7, 0xd609bdc3, 0x54c22a6c,
                0x78c7500c, 0xdba21ae2, 0x4c3af449, 0xa47a23d3, 0xa2fb95a0, 0xff2a679c,
                0xff6ae436, 0x3d07eed9, 0x36f39d1a, 0xbf0823c8, 0x740ccf53, 0x648372d6,
                0x428a2f98, 0x71374491, 0xb5c0fbcf, 0xe9b5dba5, 0x3956c25b, 0x59f111f1, 0x923f82a4, 0xab1c5ed5,
                0x77686174, 0x20646f20, 0x79612077, 0x616e7420, 0x666f7220, 0x6e6f7468, 0x696e673f, 0x80000000);
    EightRounds(Regs(0x655da7fa, 0xcc434b37, 0x5a1cd5cb, 0x0692ee0e, 0xa47a23d3, 0x4c3af449, 0xdba21ae2, 0x78c7500c),
                m, 8,
                0xf5d4dabb, 0x567dcdf7, 0xd609bdc3, 0x54c22a6c, 0xf630cd63, 0x04bd02e2,
                0x5a575c57, 0xd1f3d86b, 0x09eca57c, 0xf5842695, 0xd0e32bb8, 0xbf4e7f46,
                0x36f39d1a, 0xbf0823c8, 0x740ccf53, 0x648372d6, 0x46c05c5e, 0x2f941670,
                0x797c2276, 0x67225dae, 0xb6e243b9, 0x053ab6db, 0x0000f140, 0xda0d8141,
                0xd807aa98, 0x12835b01, 0x243185be, 0x550c7dc3, 0x72be5d74, 0x80deb1fe, 0x9bdc06a7, 0xc19bf174,
                0x00000000, 0x00000000, 0x00000000, 0x00000000, 0x00000000, 0x00000000, 0x00000000, 0x000002e0);
    EightRounds(Regs(0x655da7fa, 0xcc434b37, 0x5a1cd5cb, 0x0692ee0e, 0xa47a23d3, 0x4c3af449, 0xdba21ae2, 0x78c7500c),
                m, 16,
                0x09eca57c, 0xf5842695, 0xd0e32bb8, 0xbf4e7f46, 0x03129a36, 0x604a7248,
                0xeedaca00, 0xbe87e7f9, 0xbf0b0bf2, 0xf06fcc32, 0x79a0a5a9, 0x5b9a284d,
                0xb6e243b9, 0x053ab6db, 0x0000f140, 0xda0d8141, 0xab1d90bf, 0xa76ff792,
                0xf8dabc32, 0x1ae1c552, 0x835ed8a5, 0xb5b58232, 0x47aee404, 0x2f41410b,
                0xe49b69c1, 0xefbe4786, 0x0fc19dc6, 0x240ca1cc, 0x2de92c6f, 0x4a7484aa, 0x5cb0a9dc, 0x76f988da,
                0xd6ecae97, 0xcb53a736, 0x0df4d52e, 0x99470585, 0x56ac588f, 0xbaf46d24, 0x21b274b4, 0x120525d6);
    EightRounds(Regs(0x655da7fa, 0xcc434b37, 0x5a1cd5cb, 0x0692ee0e, 0xa47a23d3, 0x4c3af449, 0xdba21ae2, 0x78c7500c),
                m, 24,
                0xbf0b0bf2, 0xf06fcc32, 0x79a0a5a9, 0x5b9a284d, 0x96bb045f, 0x4263f6b0,
                0xe45cf572, 0x2baf19c4, 0xfd6b63f2, 0x578885a2, 0xa80d8d52, 0x3eebaf95,
                0x835ed8a5, 0xb5b58232, 0x47aee404, 0x2f41410b, 0x5fee007c, 0xabd69400,
                0xe0824704, 0x5f777975, 0xb908e6ba, 0x9f3a120e, 0x71d96c70, 0x76edd9cf,
                0x983e5152, 0xa831c66d, 0xb00327c8, 0xbf597fc7, 0xc6e00bf3, 0xd5a79147, 0x06ca6351, 0x14292967,
                0x40189fa8, 0x444a1f39, 0xf57833ad, 0xa316f0ba, 0xda928743, 0xc8153509, 0xe63c58e9, 0x9b063401);
    EightRounds(Regs(0x655da7fa, 0xcc434b37, 0x5a1cd5cb, 0x0692ee0e, 0xa47a23d3, 0x4c3af449, 0xdba21ae2, 0x78c7500c),
                m, 32,
                0xfd6b63f2, 0x578885a2, 0xa80d8d52, 0x3eebaf95, 0x89640ed6, 0x51552207,
                0x008c48f1, 0xb55acccf, 0x44a5d2ff, 0x89b963f0, 0xc43e9334, 0x64336633,
                0xb908e6ba, 0x9f3a120e, 0x71d96c70, 0x76edd9cf, 0xaa989cf3, 0xbb9a0523,
                0xfe4cc83f, 0xbc799f31, 0xdc9571de, 0x04e91075, 0x66ab4215, 0x01eb08e5,
                0x27b70a85, 0x2e1b2138, 0x4d2c6dfc, 0x53380d13, 0x650a7354, 0x766a0abb, 0x81c2c92e, 0x92722c85,
                0x5fb8701b, 0x06610ac3, 0xc09ff909, 0x1a6d0e91, 0x67b9d8fd, 0xb9251d58, 0x7b42c482, 0x1e4fcbae);
    EightRounds(Regs(0x655da7fa, 0xcc434b37, 0x5a1cd5cb, 0x0692ee0e, 0xa47a23d3, 0x4c3af449, 0xdba21ae2, 0x78c7500c),
                m, 40,
                0x44a5d2ff, 0x89b963f0, 0xc43e9334, 0x64336633, 0x6987babb, 0x8ec6134f,
                0x795b866f, 0x3d286fbb, 0x9f6132f2, 0xb5486ab0, 0xc30b4900, 0x18eae95d,
                0xdc9571de, 0x04e91075, 0x66ab4215, 0x01eb08e5, 0xc4e2f503, 0xa2f775d7,
                0x6f921a90, 0xb45facdd, 0xb871c7e5, 0x521dd93c, 0x2580f283, 0x68e92552,
                0xa2bfe8a1, 0xa81a664b, 0xc24b8b70, 0xc76c51a3, 0xd192e819, 0xd6990624, 0xf40e3585, 0x106aa070,
                0x7f18d3ae, 0x6b3e02aa, 0x60acd3cc, 0x09230471, 0xcf103ae0, 0xff3e7122, 0xbc028b24, 0x31f8a0a0);
    EightRounds(Regs(0x655da7fa, 0xcc434b37, 0x5a1cd5cb, 0x0692ee0e, 0xa47a23d3, 0x4c3af449, 0xdba21ae2, 0x78c7500c),
                m, 48,
                0x9f6132f2, 0xb5486ab0, 0xc30b4900, 0x18eae95d, 0x792962de, 0xf8f9ec3e,
                0x55103dbb, 0xb1b19220, 0x72ebf845, 0x71f4ebf0, 0xf1b65c41, 0xe73f1bab,
                0xb871c7e5, 0x521dd93c, 0x2580f283, 0x68e92552, 0xdfc9235d, 0x27e4057a,
                0x66b8573a, 0xd8fac404, 0x7f423327, 0xc7cca388, 0x44832b00, 0xdfe69826,
                0x19a4c116, 0x1e376c08, 0x2748774c, 0x34b0bcb5, 0x391c0cb3, 0x4ed8aa4a, 0x5b9cca4f, 0x682e6ff3,
                0xa4405ebd, 0xa126f06e, 0x5140b18d, 0x0f9727bc, 0x96dc649b, 0xa7105035, 0x1955553f, 0x4cbc81fd);
    EightRounds(Regs(0x655da7fa, 0xcc434b37, 0x5a1cd5cb, 0x0692ee0e, 0xa47a23d3, 0x4c3af449, 0xdba21ae2, 0x78c7500c),
                m, 56,
                0x72ebf845, 0x71f4ebf0, 0xf1b65c41, 0xe73f1bab, 0x69922978, 0x33a4ced7,
                0x8d8a1bdb, 0x39946bf0, 0x1d9fb3df, 0x0a8fb7b5, 0x70e4aea1, 0x3d86dd8c,
                0x7f423327, 0xc7cca388, 0x44832b00, 0xdfe69826, 0x11c9754e, 0xaae179f5,
                0xf21e79c4, 0xe17ff730, 0x4d627acb, 0xf945ce35, 0x22f9a8cd, 0xa3036879,
                0x748f82ee, 0x78a5636f, 0x84c87814, 0x8cc70208, 0x90befffa, 0xa4506ceb, 0xbef9a3f7, 0xc67178f2,
                0xf9992590, 0x2d78b115, 0x48b2660c, 0xc566eb38, 0xbc4719f4, 0xbd8f6578, 0xe71fceb9, 0x023dd359);
    ReachedIs(Regs(0x655da7fa, 0xcc434b37, 0x5a1cd5cb, 0x0692ee0e, 0xa47a23d3, 0x4c3af449, 0xdba21ae2, 0x78c7500c), m,
              0x1d9fb3df, 0x0a8fb7b5, 0x70e4aea1, 0x3d86dd8c, 0x4d627acb, 0xf945ce35, 0x22f9a8cd, 0xa3036879);
    AllRounds(Regs(0x655da7fa, 0xcc434b37, 0x5a1cd5cb, 0x0692ee0e, 0xa47a23d3, 0x4c3af449, 0xdba21ae2, 0x78c7500c),
              Regs(0x3d86dd8c, 0x70e4aea1, 0x0a8fb7b5, 0x1d9fb3df, 0xa3036879, 0x22f9a8cd, 0xf945ce35, 0x4d627acb),
              Regs(0xa2e48586, 0x3d27f9d8, 0x64ac8d80, 0x2432a1ed, 0x477d8c4c, 0x6f349d16, 0xd4e7e917, 0xc629cad7), m);
  }

  /** The key under the outer pad. */
  lemma OuterKeyBlock(m: Block)
    requires KnownW(m, 0, 0x16393a39, 0x5c5c5c5c, 0x5c5c5c5c, 0x5c5c5c5c, 0x5c5c5c5c, 0x5c5c5c5c, 0x5c5c5c5c, 0x5c5c5c5c)
    requires KnownW(m, 8, 0x5c5c5c5c, 0x5c5c5c5c, 0x5c5c5c5c, 0x5c5c5c5c, 0x5c5c5c5c, 0x5c5c5c5c, 0x5c5c5c5c, 0x5c5c5c5c)
    ensures Compress(Regs(0x6a09e667, 0xbb67ae85, 0x3c6ef372, 0xa54ff53a, 0x510e527f, 0x9b05688c, 0x1f83d9ab, 0x5be0cd19), m)
         == Regs(0x0eafe3d5, 0x13412e6c, 0x6a6a2feb, 0x2d375acc, 0x51a4fd47, 0x6db095e8, 0x23bfa18a, 0x52f141d5)
  {
    hide Rounds, Compress, Reached, KnownK, KnownW;
    K0();
    K16();
    K32();
    K48();
    NoRounds(0x6a09e667, 0xbb67ae85, 0x3c6ef372, 0xa54ff53a, 0x510e527f, 0x9b05688c, 0x1f83d9ab, 0x5be0cd19, m);
    NextWords(m, 0,
              0x16393a39, 0x5c5c5c5c, 0x5c5c5c5c, 0x5c5c5c5c, 0x5c5c5c5c, 0x5c5c5c5c, 0x5c5c5c5c, 0x5c5c5c5c,
              0x5c5c5c5c, 0x5c5c5c5c, 0x5c5c5c5c, 0x5c5c5c5c, 0x5c5c5c5c, 0x5c5c5c5c, 0x5c5c5c5c, 0x5c5c5c5c,
              0xbc6c6d6b, 0x028f8f8e, 0x18148f7c, 0x93133fd1, 0x33346707, 0x55131c00, 0x1c4c8fc1, 0xaa8252d7);
    NextWords(m, 8,
              0x5c5c5c5c, 0x5c5c5c5c, 0x5c5c5c5c, 0x5c5c5c5c, 0x5c5c5c5c, 0x5c5c5c5c, 0x5c5c5c5c, 0x5c5c5c5c,
              0xbc6c6d6b, 0x028f8f8e, 0x18148f7c, 0x93133fd1, 0x33346707, 0x55131c00, 0x1c4c8fc1, 0xaa8252d7,
              0xd92fce9a, 0x7bb09081, 0xb23c3c92, 0x8e036611, 0xef8b1cd6, 0xfcb68659, 0x98cd1c4a, 0xa514d1ce);
    NextWords(m, 16,
              0xbc6c6d6b, 0x028f8f8e, 0x18148f7c, 0x93133fd1, 0x33346707, 0x55131c00, 0x1c4c8fc1, 0xaa8252d7,
              0xd92fce9a, 0x7bb09081, 0xb23c3c92, 0x8e036611, 0xef8b1cd6, 0xfcb68659, 0x98cd1c4a, 0xa514d1ce,
              0x655e9871, 0x80b14e30, 0xc3f7e470, 0x235e01a7, 0x0b79c2d8, 0x51112a82, 0xc947e091, 0x9d17222d);
    NextWords(m, 24,
              0xd92fce9a, 0x7bb09081, 0xb23c3c92, 0x8e036611, 0xef8b1cd6, 0xfcb68659, 0x98cd1c4a, 0xa514d1ce,
              0x655e9871, 0x80b14e30, 0xc3f7e470, 0x235e01a7, 0x0b79c2d8, 0x51112a82, 0xc947e091, 0x9d17222d,
              0x8fead71a, 0xf1240136, 0xf2403484, 0x911ae6e0, 0x6b8481a7, 0xb6c12283, 0xc47d12e8, 0x32b8fe41);
    NextWords(m, 32,
              0x655e9871, 0x80b14e30, 0xc3f7e470, 0x235e01a7, 0x0b79c2d8, 0x51112a82, 0xc947e091, 0x9d17222d,
              0x8fead71a, 0xf1240136, 0xf2403484, 0x911ae6e0, 0x6b8481a7, 0xb6c12283, 0xc47d12e8, 0x32b8fe41,
              0xa4366b12, 0xd4bab7a3, 0x18198b37, 0x5dc30ab5, 0xfb56e209, 0xbc47b487, 0x298fa38f, 0xff6df23c);
    NextWords(m, 40,
              0x8fead71a, 0xf1240136, 0xf2403484, 0x911ae6e0, 0x6b8481a7, 0xb6c12283, 0xc47d12e8, 0x32b8fe41,
              0xa4366b12, 0xd4bab7a3, 0x18198b37, 0x5dc30ab5, 0xfb56e209, 0xbc47b487, 0x298fa38f, 0xff6df23c,
              0xfded1548, 0x6b3181fd, 0xe2eea69e, 0xe11be15d, 0x08859856, 0xfacb39cf, 0xfeb10bf2, 0xd790cd34);
    EightRounds(Regs(0x6a09e667, 0xbb67ae85, 0x3c6ef372, 0xa54ff53a, 0x510e527f, 0x9b05688c, 0x1f83d9ab, 0x5be0cd19),
                m, 0,
                0xa54ff53a, 0x3c6ef372, 0xbb67ae85, 0x6a09e667, 0x1241c286, 0x455055eb,
                0x03637aee, 0x3c9c8844, 0xcb1304a6, 0xb1133397, 0xe54a3493, 0x69435709,
                0x5be0cd19, 0x1f83d9ab, 0x9b05688c, 0x510e527f, 0xaf011cdb, 0xafd267f0,
                0x3d2fcf9f, 0xc9219e10, 0x98dc9837, 0x0f707dff, 0xf3639443, 0x4facc1d6,
                0x428a2f98, 0x71374491, 0xb5c0fbcf, 0xe9b5dba5, 0x3956c25b, 0x59f111f1, 0x923f82a4, 0xab1c5ed5,
                0x16393a39, 0x5c5c5c5c, 0x5c5c5c5c, 0x5c5c5c5c, 0x5c5c5c5c, 0x5c5c5c5c, 0x5c5c5c5c, 0x5c5c5c5c);
    EightRounds(Regs(0x6a09e667, 0xbb67ae85, 0x3c6ef372, 0xa54ff53a, 0x510e527f, 0x9b05688c, 0x1f83d9ab, 0x5be0cd19),
                m, 8,
                0xcb1304a6, 0xb1133397, 0xe54a3493, 0x69435709, 0x96d3fb5e, 0xba42125f,
                0xc8369aca, 0xee376db8, 0xa1a61c47, 0xdf63a889, 0x5e3eeba7, 0xe7b8b56f,
                0x98dc9837, 0x0f707dff, 0xf3639443, 0x4facc1d6, 0x915c0df4, 0x55649cc8,
                0x7f195390, 0xfef75e3d, 0xc247b35e, 0x1f4a0977, 0x7a1a23a6, 0x85ada43a,
                0xd807aa98, 0x12835b01, 0x243185be, 0x550c7dc3, 0x72be5d74, 0x80deb1fe, 0x9bdc06a7, 0xc19bf174,
                0x5c5c5c5c, 0x5c5c5c5c, 0x5c5c5c5c, 0x5c5c5c5c, 0x5c5c5c5c, 0x5c5c5c5c, 0x5c5c5c5c, 0x5c5c5c5c);
    EightRounds(Regs(0x6a09e667, 0xbb67ae85, 0x3c6ef372, 0xa54ff53a, 0x510e527f, 0x9b05688c, 0x1f83d9ab, 0x5be0cd19),
                m, 16,
                0xa1a61c47, 0xdf63a889, 0x5e3eeba7, 0xe7b8b56f, 0xc8ad2b06, 0xa0d6a020,
                0x6643e281, 0x3cbb1ed2, 0x0b37ef52, 0x93238532, 0xb3d8e080, 0x897a142a,
                0xc247b35e, 0x1f4a0977, 0x7a1a23a6, 0x85ada43a, 0xdad3ee9e, 0x52cc88f8,
                0x701600c4, 0x019a631b, 0x194d0d3a, 0xdde54c39, 0xfba08193, 0xe78fa9c2,
                0xe49b69c1, 0xefbe4786, 0x0fc19dc6, 0x240ca1cc, 0x2de92c6f, 0x4a7484aa, 0x5cb0a9dc, 0x76f988da,
                0xbc6c6d6b, 0x028f8f8e, 0x18148f7c, 0x93133fd1, 0x33346707, 0x55131c00, 0x1c4c8fc1, 0xaa8252d7);
    EightRounds(Regs(0x6a09e667, 0xbb67ae85, 0x3c6ef372, 0xa54ff53a, 0x510e527f, 0x9b05688c, 0x1f83d9ab, 0x5be0cd19),
                m, 24,
                0x0b37ef52, 0x93238532, 0xb3d8e080, 0x897a142a, 0xf9870a23, 0x1c11e5a3,
                0xa6dcfe16, 0x86103013, 0x66159104, 0x33c6b89d, 0x466a3c05, 0x223781a1,
                0x194d0d3a, 0xdde54c39, 0xfba08193, 0xe78fa9c2, 0x85ea1054, 0x4204e95d,
                0x1418c4dc, 0x27fa0221, 0xb7b33477, 0xe1e1a8b5, 0x34384529, 0x28c05066,
                0x983e5152, 0xa831c66d, 0xb00327c8, 0xbf597fc7, 0xc6e00bf3, 0xd5a79147, 0x06ca6351, 0x14292967,
                0xd92fce9a, 0x7bb09081, 0xb23c3c92, 0x8e036611, 0xef8b1cd6, 0xfcb68659, 0x98cd1c4a, 0xa514d1ce);
    EightRounds(Regs(0x6a09e667, 0xbb67ae85, 0x3c6ef372, 0xa54ff53a, 0x510e527f, 0x9b05688c, 0x1f83d9ab, 0x5be0cd19),
                m, 32,
                0x66159104, 0x33c6b89d, 0x466a3c05, 0x223781a1, 0xd822185e, 0x54ecb192,
                0xad7954cf, 0xe7d10d33, 0xfb686937, 0x297f2869, 0xe332a1f9, 0x2085ac20,
                0xb7b33477, 0xe1e1a8b5, 0x34384529, 0x28c05066, 0x804e7b81, 0x49f215c3,
                0xf84d3cf0, 0x85307daa, 0x1931b9a7, 0x78316de1, 0xaf7ba84f, 0x5f583973,
                0x27b70a85, 0x2e1b2138, 0x4d2c6dfc, 0x53380d13, 0x650a7354, 0x766a0abb, 0x81c2c92e, 0x92722c85,
                0x655e9871, 0x80b14e30, 0xc3f7e470, 0x235e01a7, 0x0b79c2d8, 0x51112a82, 0xc947e091, 0x9d17222d);
    EightRounds(Regs(0x6a09e667, 0xbb67ae85, 0x3c6ef372, 0xa54ff53a, 0x510e527f, 0x9b05688c, 0x1f83d9ab, 0x5be0cd19),
                m, 40,
                0xfb686937, 0x297f2869, 0xe332a1f9, 0x2085ac20, 0x6b28b082, 0x16966c26,
                0xb476c398, 0x2a70095c, 0x5b5a8b27, 0x5009f43b, 0xe65638ea, 0x835aa22a,
                0x1931b9a7, 0x78316de1, 0xaf7ba84f, 0x5f583973, 0xc5c881a9, 0x20d97726,
                0xb7ff018f, 0x29e86379, 0x0fb4d10f, 0x466cefd5, 0xee6c6342, 0x354edc49,
                0xa2bfe8a1, 0xa81a664b, 0xc24b8b70, 0xc76c51a3, 0xd192e819, 0xd6990624, 0xf40e3585, 0x106aa070,
                0x8fead71a, 0xf1240136, 0xf2403484, 0x911ae6e0, 0x6b8481a7, 0xb6c12283, 0xc47d12e8, 0x32b8fe41);
    EightRounds(Regs(0x6a09e667, 0xbb67ae85, 0x3c6ef372, 0xa54ff53a, 0x510e527f, 0x9b05688c, 0x1f83d9ab, 0x5be0cd19),
                m, 48,
                0x5b5a8b27, 0x5009f43b, 0xe65638ea, 0x835aa22a, 0xdbfedfb7, 0xa0b0242f,
                0x4980a430, 0x1ca2eaeb, 0xf2457593, 0xd2dbf54f, 0xd3a780aa, 0x8a8b3fbf,
                0x0fb4d10f, 0x466cefd5, 0xee6c6342, 0x354edc49, 0x99f4a262, 0x3d1ba64c,
                0xa21a84e3, 0xa4da44af, 0xa9c7bd40, 0xd532b445, 0x1946da48, 0xa4a85ec7,
                0x19a4c116, 0x1e376c08, 0x2748774c, 0x34b0bcb5, 0x391c0cb3, 0x4ed8aa4a, 0x5b9cca4f, 0x682e6ff3,
                0xa4366b12, 0xd4bab7a3, 0x18198b37, 0x5dc30ab5, 0xfb56e209, 0xbc47b487, 0x298fa38f, 0xff6df23c);
    EightRounds(Regs(0x6a09e667, 0xbb67ae85, 0x3c6ef372, 0xa54ff53a, 0x510e527f, 0x9b05688c, 0x1f83d9ab, 0x5be0cd19),
                m, 56,
                0xf2457593, 0xd2dbf54f, 0xd3a780aa, 0x8a8b3fbf, 0x05ccc2a3, 0x8e535f40,
                0x6717179f, 0xb31fa7ba, 0x87e76592, 0x2dfb3c79, 0x57d97fe7, 0xa4a5fd6e,
                0xa9c7bd40, 0xd532b445, 0x1946da48, 0xa4a85ec7, 0xf1e61ceb, 0xf63e3f0b,
                0x17059133, 0xfcf30f33, 0xf71074bc, 0x043bc7df, 0xd2ab2d5c, 0x0096aac8,
                0x748f82ee, 0x78a5636f, 0x84c87814, 0x8cc70208, 0x90befffa, 0xa4506ceb, 0xbef9a3f7, 0xc67178f2,
                0xfded1548, 0x6b3181fd, 0xe2eea69e, 0xe11be15d, 0x08859856, 0xfacb39cf, 0xfeb10bf2, 0xd790cd34);
    ReachedIs(Regs(0x6a09e667, 0xbb67ae85, 0x3c6ef372, 0xa54ff53a, 0x510e527f, 0x9b05688c, 0x1f83d9ab, 0x5be0cd19), m,
              0x87e76592, 0x2dfb3c79, 0x57d97fe7, 0xa4a5fd6e, 0xf71074bc, 0x043bc7df, 0xd2ab2d5c, 0x0096aac8);
    AllRounds(Regs(0x6a09e667, 0xbb67ae85, 0x3c6ef372, 0xa54ff53a, 0x510e527f, 0x9b05688c, 0x1f83d9ab, 0x5be0cd19),
              Regs(0xa4a5fd6e, 0x57d97fe7, 0x2dfb3c79, 0x87e76592, 0x0096aac8, 0xd2ab2d5c, 0x043bc7df, 0xf71074bc),
              Regs(0x0eafe3d5, 0x13412e6c, 0x6a6a2feb, 0x2d375acc, 0x51a4fd47, 0x6db095e8, 0x23bfa18a, 0x52f141d5), m);
  }

  /** The inner digest, padded. */
  lemma DigestBlock(m: Block)
    requires KnownW(m, 0, 0xa2e48586, 0x3d27f9d8, 0x64ac8d80, 0x2432a1ed, 0x477d8c4c, 0x6f349d16, 0xd4e7e917, 0xc629cad7)
    requires KnownW(m, 8, 0x80000000, 0x00000000, 0x00000000, 0x00000000, 0x00000000, 0x00000000, 0x00000000, 0x00000300)
    ensures Compress(Regs(0x0eafe3d5, 0x13412e6c, 0x6a6a2feb, 0x2d375acc, 0x51a4fd47, 0x6db095e8, 0x23bfa18a, 0x52f141d5), m)
         == Regs(0x5bdcc146, 0xbf60754e, 0x6a042426, 0x089575c7, 0x5a003f08, 0x9d273983, 0x9dec58b9, 0x64ec3843)
  {
    hide Rounds, Compress, Reached, KnownK, KnownW;
    K0();
    K16();
    K32();
    K48();
    NoRounds(0x0eafe3d5, 0x13412e6c, 0x6a6a2feb, 0x2d375acc, 0x51a4fd47, 0x6db095e8, 0x23bfa18a, 0x52f141d5, m);
    NextWords(m, 0,
              0xa2e48586, 0x3d27f9d8, 0x64ac8d80, 0x2432a1ed, 0x477d8c4c, 0x6f349d16, 0xd4e7e917, 0xc629cad7,
              0x80000000, 0x00000000, 0x00000000, 0x00000000, 0x00000000, 0x00000000, 0x00000000, 0x00000300,
              0xec8d4507, 0x6e44cb58, 0xe57a2e78, 0x1481a913, 0xa0c51e3a, 0x20542d99, 0xc7d6bc99, 0x572ed109);
    NextWords(m, 8,
              0x80000000, 0x00000000, 0x00000000, 0x00000000, 0x00000000, 0x00000000, 0x00000000, 0x00000300,
              0xec8d4507, 0x6e44cb58, 0xe57a2e78, 0x1481a913, 0xa0c51e3a, 0x20542d99, 0xc7d6bc99, 0x572ed109,
              0x7832fa16, 0x982a793e, 0x36d9a8b4, 0x1463b3c8, 0x01955976, 0x776eccea, 0x5f84771d, 0x7b31f508);
    NextWords(m, 16,
              0xec8d4507, 0x6e44cb58, 0xe57a2e78, 0x1481a913, 0xa0c51e3a, 0x20542d99, 0xc7d6bc99, 0x572ed109,
              0x7832fa16, 0x982a793e, 0x36d9a8b4, 0x1463b3c8, 0x01955976, 0x776eccea, 0x5f84771d, 0x7b31f508,
              0xc9f4aee0, 0xd055fb5c, 0x0b79d67f, 0x7fe06bb1, 0x27530bc7, 0x3cdd17eb, 0xd3a5276a, 0xe79ef353);
    NextWords(m, 24,
              0x7832fa16, 0x982a793e, 0x36d9a8b4, 0x1463b3c8, 0x01955976, 0x776eccea, 0x5f84771d, 0x7b31f508,
              0xc9f4aee0, 0xd055fb5c, 0x0b79d67f, 0x7fe06bb1, 0x27530bc7, 0x3cdd17eb, 0xd3a5276a, 0xe79ef353,
              0x70708e40, 0x503a442e, 0x8c04f280, 0x60a9ae13, 0x8edf61fe, 0x5a70bc6a, 0x06d8cf63, 0x2866cc9d);
    NextWords(m, 32,
              0xc9f4aee0, 0xd055fb5c, 0x0b79d67f, 0x7fe06bb1, 0x27530bc7, 0x3cdd17eb, 0xd3a5276a, 0xe79ef353,
              0x70708e40, 0x503a442e, 0x8c04f280, 0x60a9ae13, 0x8edf61fe, 0x5a70bc6a, 0x06d8cf63, 0x2866cc9d,
              0x7608691a, 0xa7182225, 0x1dc70eca, 0x6c947dd1, 0x7c97dcae, 0x7b09005f, 0x19d1e2a0, 0xab60d9da);
    NextWords(m, 40,
              0x70708e40, 0x503a442e, 0x8c04f280, 0x60a9ae13, 0x8edf61fe, 0x5a70bc6a, 0x06d8cf63, 0x2866cc9d,
              0x7608691a, 0xa7182225, 0x1dc70eca, 0x6c947dd1, 0x7c97dcae, 0x7b09005f, 0x19d1e2a0, 0xab60d9da,
              0xac37d412, 0x1236e096, 0x4a8a3d6d, 0xbe58c2f1, 0x53d27161, 0xe25a87a5, 0xb53d7e5f, 0x0828fce9);
    EightRounds(Regs(0x0eafe3d5, 0x13412e6c, 0x6a6a2feb, 0x2d375acc, 0x51a4fd47, 0x6db095e8, 0x23bfa18a, 0x52f141d5),
                m, 0,
                0x2d375acc, 0x6a6a2feb, 0x13412e6c, 0x0eafe3d5, 0xf0e59b1a, 0x74d0a70d,
                0x3e39426b, 0x3b3e45a9, 0x13e61c3b, 0xcb506feb, 0x12acdcbb, 0x5d1582d4,
                0x52f141d5, 0x23bfa18a, 0x6db095e8, 0x51a4fd47, 0x3124ec49, 0xd9d2a173,
                0xb4d11325, 0x9b1e98cb, 0x2c0283b8, 0x4790de5c, 0x6939e327, 0xf26e1dc0,
                0x428a2f98, 0x71374491, 0xb5c0fbcf, 0xe9b5dba5, 0x3956c25b, 0x59f111f1, 0x923f82a4, 0xab1c5ed5,
                0xa2e48586, 0x3d27f9d8, 0x64ac8d80, 0x2432a1ed, 0x477d8c4c, 0x6f349d16, 0xd4e7e917, 0xc629cad7);
    EightRounds(Regs(0x0eafe3d5, 0x13412e6c, 0x6a6a2feb, 0x2d375acc, 0x51a4fd47, 0x6db095e8, 0x23bfa18a, 0x52f141d5),
                m, 8,
                0x13e61c3b, 0xcb506feb, 0x12acdcbb, 0x5d1582d4, 0x299dafa1, 0x96690f80,
                0x75af6d08, 0x38e7f5bb, 0xb3f53c2a, 0x9af3cfc9, 0x8777eeed, 0x524a1ef8,
                0x2c0283b8, 0x4790de5c, 0x6939e327, 0xf26e1dc0, 0x8a822374, 0x064b4d17,
                0x6d9dc752, 0x97b3f120, 0xac6ca791, 0x661ce7b3, 0x6a605c43, 0x2e2fafb1,
                0xd807aa98, 0x12835b01, 0x243185be, 0x550c7dc3, 0x72be5d74, 0x80deb1fe, 0x9bdc06a7, 0xc19bf174,
                0x80000000, 0x00000000, 0x00000000, 0x00000000, 0x00000000, 0x00000000, 0x00000000, 0x00000300);
    EightRounds(Regs(0x0eafe3d5, 0x13412e6c, 0x6a6a2feb, 0x2d375acc, 0x51a4fd47, 0x6db095e8, 0x23bfa18a, 0x52f141d5),
                m, 16,
                0xb3f53c2a, 0x9af3cfc9, 0x8777eeed, 0x524a1ef8, 0x6ab009c8, 0x0b5d65cb,
                0xf737884e, 0x14a85bed, 0x28d0682e, 0x513d0d3f, 0xe78abb5d, 0xca1dd9eb,
                0xac6ca791, 0x661ce7b3, 0x6a605c43, 0x2e2fafb1, 0xc1058262, 0xcf16b054,
                0x9b3f39bf, 0xda2210a8, 0x4116203c, 0x9d044671, 0x8488c299, 0xf34d277d,
                0xe49b69c1, 0xefbe4786, 0x0fc19dc6, 0x240ca1cc, 0x2de92c6f, 0x4a7484aa, 0x5cb0a9dc, 0x76f988da,
                0xec8d4507, 0x6e44cb58, 0xe57a2e78, 0x1481a913, 0xa0c51e3a, 0x20542d99, 0xc7d6bc99, 0x572ed109);
    EightRounds(Regs(0x0eafe3d5, 0x13412e6c, 0x6a6a2feb, 0x2d375acc, 0x51a4fd47, 0x6db095e8, 0x23bfa18a, 0x52f141d5),
                m, 24,
                0x28d0682e, 0x513d0d3f, 0xe78abb5d, 0xca1dd9eb, 0xaa4cb4b8, 0x80cb7f4b,
                0x11668226, 0xf7c152af, 0x804e3e18, 0x88ff9220, 0x6a101e8a, 0xf5637c6b,
                0x4116203c, 0x9d044671, 0x8488c299, 0xf34d277d, 0xc540f9ab, 0x2a7734af,
                0x370f480e, 0x322ec278, 0x2b124b23, 0x90550f47, 0xad346d31, 0x36193288,
                0x983e5152, 0xa831c66d, 0xb00327c8, 0xbf597fc7, 0xc6e00bf3, 0xd5a79147, 0x06ca6351, 0x14292967,
                0x7832fa16, 0x982a793e, 0x36d9a8b4, 0x1463b3c8, 0x01955976, 0x776eccea, 0x5f84771d, 0x7b31f508);
    EightRounds(Regs(0x0eafe3d5, 0x13412e6c, 0x6a6a2feb, 0x2d375acc, 0x51a4fd47, 0x6db095e8, 0x23bfa18a, 0x52f141d5),
                m, 32,
                0x804e3e18, 0x88ff9220, 0x6a101e8a, 0xf5637c6b, 0xbac40fc4, 0x55d2eba2,
                0x342f2c31, 0xb17f8072, 0x3a8a934f, 0x2e42d717, 0x0d153365, 0x0939a676,
                0x2b124b23, 0x90550f47, 0xad346d31, 0x36193288, 0xbea853de, 0xa3e697be,
                0x24b43db1, 0xe1ea1e98, 0x6e0359bc, 0xd54ff5d9, 0x8e8430d5, 0x0015e35d,
                0x27b70a85, 0x2e1b2138, 0x4d2c6dfc, 0x53380d13, 0x650a7354, 0x766a0abb, 0x81c2c92e, 0x92722c85,
                0xc9f4aee0, 0xd055fb5c, 0x0b79d67f, 0x7fe06bb1, 0x27530bc7, 0x3cdd17eb, 0xd3a5276a, 0xe79ef353);
    EightRounds(Regs(0x0eafe3d5, 0x13412e6c, 0x6a6a2feb, 0x2d375acc, 0x51a4fd47, 0x6db095e8, 0x23bfa18a, 0x52f141d5),
                m, 40,
                0x3a8a934f, 0x2e42d717, 0x0d153365, 0x0939a676, 0xd04db10e, 0x558052cc,
                0xea1d3715, 0x86ed36a6, 0x31c61bbf, 0x0795c206, 0xa4d05bd3, 0x5ab28db9,
                0x6e0359bc, 0xd54ff5d9, 0x8e8430d5, 0x0015e35d, 0xa65e9472, 0x7003a10e,
                0x23df2e45, 0x09255f8c, 0x9b30b56e, 0xb061e903, 0xc04b2c11, 0x4504e9e3,
                0xa2bfe8a1, 0xa81a664b, 0xc24b8b70, 0xc76c51a3, 0xd192e819, 0xd6990624, 0xf40e3585, 0x106aa070,
                0x70708e40, 0x503a442e, 0x8c04f280, 0x60a9ae13, 0x8edf61fe, 0x5a70bc6a, 0x06d8cf63, 0x2866cc9d);
    EightRounds(Regs(0x0eafe3d5, 0x13412e6c, 0x6a6a2feb, 0x2d375acc, 0x51a4fd47, 0x6db095e8, 0x23bfa18a, 0x52f141d5),
                m, 48,
                0x31c61bbf, 0x0795c206, 0xa4d05bd3, 0x5ab28db9, 0x4628a95a, 0xd908ac74,
                0x11a2ef9d, 0x2e630aba, 0x1eb1f18c, 0x7ffaa436, 0x7e24f1f8, 0x13793033,
                0x9b30b56e, 0xb061e903, 0xc04b2c11, 0x4504e9e3, 0x800d65f6, 0x1ff07294,
                0xe4f56dbc, 0x84aea861, 0xf954931b, 0xee54ab78, 0xfbf6b1b0, 0xbf9e1c90,
                0x19a4c116, 0x1e376c08, 0x2748774c, 0x34b0bcb5, 0x391c0cb3, 0x4ed8aa4a, 0x5b9cca4f, 0x682e6ff3,
                0x7608691a, 0xa7182225, 0x1dc70eca, 0x6c947dd1, 0x7c97dcae, 0x7b09005f, 0x19d1e2a0, 0xab60d9da);
    EightRounds(Regs(0x0eafe3d5, 0x13412e6c, 0x6a6a2feb, 0x2d375acc, 0x51a4fd47, 0x6db095e8, 0x23bfa18a, 0x52f141d5),
                m, 56,
                0x1eb1f18c, 0x7ffaa436, 0x7e24f1f8, 0x13793033, 0x56d92dbb, 0x6f544952,
                0x989fc133, 0x9b56f73d, 0xdb5e1afb, 0xff99f43b, 0xac1f46e2, 0x4d2cdd71,
                0xf954931b, 0xee54ab78, 0xfbf6b1b0, 0xbf9e1c90, 0x548c538d, 0xbbfbaad1,
                0x3f0868ad, 0xbf32e36d, 0x11faf66e, 0x7a2cb72f, 0x2f76a39b, 0x085b41c1,
                0x748f82ee, 0x78a5636f, 0x84c87814, 0x8cc70208, 0x90befffa, 0xa4506ceb, 0xbef9a3f7, 0xc67178f2,
                0xac37d412, 0x1236e096, 0x4a8a3d6d, 0xbe58c2f1, 0x53d27161, 0xe25a87a5, 0xb53d7e5f, 0x0828fce9);
    ReachedIs(Regs(0x0eafe3d5, 0x13412e6c, 0x6a6a2feb, 0x2d375acc, 0x51a4fd47, 0x6db095e8, 0x23bfa18a, 0x52f141d5), m,
              0xdb5e1afb, 0xff99f43b, 0xac1f46e2, 0x4d2cdd71, 0x11faf66e, 0x7a2cb72f, 0x2f76a39b, 0x085b41c1);
    AllRounds(Regs(0x0eafe3d5, 0x13412e6c, 0x6a6a2feb, 0x2d375acc, 0x51a4fd47, 0x6db095e8, 0x23bfa18a, 0x52f141d5),
              Regs(0x4d2cdd71, 0xac1f46e2, 0xff99f43b, 0xdb5e1afb, 0x085b41c1, 0x2f76a39b, 0x7a2cb72f, 0x11faf66e),
              Regs(0x5bdcc146, 0xbf60754e, 0x6a042426, 0x089575c7, 0x5a003f08, 0x9d273983, 0x9dec58b9, 0x64ec3843), m);
  }

  // ---------------------------------------------------------------------------
  // The blocks they work on

  lemma KeyBytes(m: Block, pad: byte)
    requires m == XorAll(BlockKey(KEY), pad)
    ensures m[0] == Xor(0x4a, pad) && m[1] == Xor(0x65, pad)
    ensures m[2] == Xor(0x66, pad) && m[3] == Xor(0x65, pad)
    ensures forall i :: 4 <= i < 64 ==> m[i] == Xor(0, pad)
  {
    hide Xor, Sha256Spec.Sha256;
  }

  lemma InnerPad()
    ensures Xor(0x4a, 0x36) == 0x7c && Xor(0x65, 0x36) == 0x53
    ensures Xor(0x66, 0x36) == 0x50 && Xor(0x65, 0x36) == 0x53 && Xor(0x00, 0x36) == 0x36
  {}

  lemma OuterPad()
    ensures Xor(0x4a, 0x5c) == 0x16 && Xor(0x65, 0x5c) == 0x39
    ensures Xor(0x66, 0x5c) == 0x3a && Xor(0x65, 0x5c) == 0x39 && Xor(0x00, 0x5c) == 0x5c
  {}

  lemma InnerKeyWords(m: Block)
    requires m == XorAll(BlockKey(KEY), 0x36)
    ensures KnownW(m, 0, 0x7c535053, 0x36363636, 0x36363636, 0x36363636, 0x36363636, 0x36363636, 0x36363636, 0x36363636)
    ensures KnownW(m, 8, 0x36363636, 0x36363636, 0x36363636, 0x36363636, 0x36363636, 0x36363636, 0x36363636, 0x36363636)
  {
    hide Join, W, Xor, XorAll, BlockKey;
    KeyBytes(m, 0x36);
    InnerPad();
    WordAt(m, 0, 0x7c, 0x53, 0x50, 0x53);
    forall t | 1 <= t < 16
      ensures W(m, t) == Join(0x36, 0x36, 0x36, 0x36)
    {
      WordAt(m, t, 0x36, 0x36, 0x36, 0x36);
    }
    InnerKeyWordsJoins();
  }

  lemma InnerKeyWordsJoins()
    ensures Join(0x7c, 0x53, 0x50, 0x53) == 0x7c535053 && Join(0x36, 0x36, 0x36, 0x36) == 0x36363636
  {}

  lemma OuterKeyWords(m: Block)
    requires m == XorAll(BlockKey(KEY), 0x5c)
    ensures KnownW(m, 0, 0x16393a39, 0x5c5c5c5c, 0x5c5c5c5c, 0x5c5c5c5c, 0x5c5c5c5c, 0x5c5c5c5c, 0x5c5c5c5c, 0x5c5c5c5c)
    ensures KnownW(m, 8, 0x5c5c5c5c, 0x5c5c5c5c, 0x5c5c5c5c, 0x5c5c5c5c, 0x5c5c5c5c, 0x5c5c5c5c, 0x5c5c5c5c, 0x5c5c5c5c)
  {
    hide Join, W, Xor, XorAll, BlockKey;
    KeyBytes(m, 0x5c);
    OuterPad();
    WordAt(m, 0, 0x16, 0x39, 0x3a, 0x39);
    forall t | 1 <= t < 16
      ensures W(m, t) == Join(0x5c, 0x5c, 0x5c, 0x5c)
    {
      WordAt(m, t, 0x5c, 0x5c, 0x5c, 0x5c);
    }
    OuterKeyWordsJoins();
  }

  lemma OuterKeyWordsJoins()
    ensures Join(0x16, 0x39, 0x3a, 0x39) == 0x16393a39 && Join(0x5c, 0x5c, 0x5c, 0x5c) == 0x5c5c5c5c
  {}

  lemma Lengths()
    ensures BigEndian(736, 8) == Zeros(6) + [0x02, 0xe0] && BigEndian(768, 8) == Zeros(6) + [0x03, 0x00]
  {
    hide BigEndian, Zeros;
    TwoDigits(736);
    TwoDigits(768);
    assert ToByte(2) == 0x02 && ToByte(3) == 0x03 && ToByte(224) == 0xe0 && ToByte(0) == 0x00;
  }

  lemma MessageHead(m: Block)
    requires m[..16] == HEAD
    ensures W(m, 0) == Join(0x77, 0x68, 0x61, 0x74)
    ensures W(m, 1) == Join(0x20, 0x64, 0x6f, 0x20)
  {
    hide Join, W;
    var h := m[..16];
    assert forall i :: 0 <= i < 8 ==> m[i] == h[i];
    WordAt(m, 0, 0x77, 0x68, 0x61, 0x74);
    WordAt(m, 1, 0x20, 0x64, 0x6f, 0x20);
  }

  lemma MessageMiddle(m: Block)
    requires m[..16] == HEAD
    ensures W(m, 2) == Join(0x79, 0x61, 0x20, 0x77)
    ensures W(m, 3) == Join(0x61, 0x6e, 0x74, 0x20)
  {
    hide Join, W;
    var h := m[..16];
    assert forall i :: 8 <= i < 16 ==> m[i] == h[i];
    WordAt(m, 2, 0x79, 0x61, 0x20, 0x77);
    WordAt(m, 3, 0x61, 0x6e, 0x74, 0x20);
  }

  lemma MessageTail(m: Block)
    requires m[16..28] == TAIL
    ensures W(m, 4) == Join(0x66, 0x6f, 0x72, 0x20)
    ensures W(m, 5) == Join(0x6e, 0x6f, 0x74, 0x68)
    ensures W(m, 6) == Join(0x69, 0x6e, 0x67, 0x3f)
  {
    hide Join, W;
    var h := m[16..28];
    assert forall i :: 16 <= i < 28 ==> m[i] == h[i - 16];
    WordAt(m, 4, 0x66, 0x6f, 0x72, 0x20);
    WordAt(m, 5, 0x6e, 0x6f, 0x74, 0x68);
    WordAt(m, 6, 0x69, 0x6e, 0x67, 0x3f);
  }

  lemma MessageWords(m: Block)
    requires m == MESSAGE + [0x80] + Zeros(27) + BigEndian(736, 8)
    ensures KnownW(m, 0, 0x77686174, 0x20646f20, 0x79612077, 0x616e7420, 0x666f7220, 0x6e6f7468, 0x696e673f, 0x80000000)
    ensures KnownW(m, 8, 0x00000000, 0x00000000, 0x00000000, 0x00000000, 0x00000000, 0x00000000, 0x00000000, 0x000002e0)
  {
    hide Join, W, BigEndian;
    Lengths();
    assert |HEAD| == 16 && |TAIL| == 12;
    assert m[..16] == HEAD && m[16..28] == TAIL;
    MessageHead(m);
    MessageMiddle(m);
    MessageTail(m);
    WordAt(m, 7, 0x80, 0x00, 0x00, 0x00);
    forall t | 8 <= t < 15
      ensures W(m, t) == Join(0x00, 0x00, 0x00, 0x00)
    {
      WordAt(m, t, 0x00, 0x00, 0x00, 0x00);
    }
    WordAt(m, 15, 0x00, 0x00, 0x02, 0xe0);
    MessageJoins();
  }

  lemma MessageJoins()
    ensures Join(0x77, 0x68, 0x61, 0x74) == 0x77686174
    ensures Join(0x20, 0x64, 0x6f, 0x20) == 0x20646f20
    ensures Join(0x79, 0x61, 0x20, 0x77) == 0x79612077
    ensures Join(0x61, 0x6e, 0x74, 0x20) == 0x616e7420
    ensures Join(0x66, 0x6f, 0x72, 0x20) == 0x666f7220
    ensures Join(0x6e, 0x6f, 0x74, 0x68) == 0x6e6f7468
    ensures Join(0x69, 0x6e, 0x67, 0x3f) == 0x696e673f
    ensures Join(0x80, 0x00, 0x00, 0x00) == 0x80000000
    ensures Join(0x00, 0x00, 0x00, 0x00) == 0x00000000
    ensures Join(0x00, 0x00, 0x02, 0xe0) == 0x000002e0
  {}

  const INNER: Regs := Regs(0xa2e48586, 0x3d27f9d8, 0x64ac8d80, 0x2432a1ed, 0x477d8c4c, 0x6f349d16, 0xd4e7e917, 0xc629cad7)

  lemma DigestWords(m: Block)
    requires m == Digest(INNER) + [0x80] + Zeros(23) + BigEndian(768, 8)
    ensures KnownW(m, 0, 0xa2e48586, 0x3d27f9d8, 0x64ac8d80, 0x2432a1ed, 0x477d8c4c, 0x6f349d16, 0xd4e7e917, 0xc629cad7)
    ensures KnownW(m, 8, 0x80000000, 0x00000000, 0x00000000, 0x00000000, 0x00000000, 0x00000000, 0x00000000, 0x00000300)
  {
    hide Join, W, BigEndian, BytesOfAll;
    Lengths();
    assert m[..32] == Digest(INNER);
    forall t | 0 <= t < 8
      ensures W(m, t) == INNER.Words()[t]
    {
      HeadWords(m, INNER.Words(), t);
    }
    WordAt(m, 8, 0x80, 0x00, 0x00, 0x00);
    forall t | 9 <= t < 15
      ensures W(m, t) == Join(0x00, 0x00, 0x00, 0x00)
    {
      WordAt(m, t, 0x00, 0x00, 0x00, 0x00);
    }
    WordAt(m, 15, 0x00, 0x00, 0x03, 0x00);
    DigestJoins();
  }

  lemma DigestJoins()
    ensures Join(0x80, 0x00, 0x00, 0x00) == 0x80000000 && Join(0x00, 0x00, 0x00, 0x00) == 0
    ensures Join(0x00, 0x00, 0x03, 0x00) == 0x00000300
  {}

  // ---------------------------------------------------------------------------
  // The two hashes

  /** A whole block and a tail that leaves room for the length: two compressions. */
  lemma TwoBlocks(whole: Block, tail: seq<byte>, last: Block)
    requires |tail| < 56 && last == tail + [0x80] + Zeros(55 - |tail|) + BigEndian(8 * (64 + |tail|), 8)
    ensures Sha256Spec.Sha256(whole + tail) == Digest(Compress(Compress(H0, whole), last))
  {
    hide Compress, BigEndian, Zeros, Chain, Pad, Digest;
    PadInOneBlock(whole, tail);
    ChainAppend(H0, [], whole);
    ChainNothing();
    assert [] + whole == whole;
    ChainAppend(H0, whole, last);
  }

  lemma ChainNothing()
    ensures Chain(H0, []) == H0
  {}

  lemma InnerHash()
    ensures Sha256Spec.Sha256(XorAll(BlockKey(KEY), 0x36) + MESSAGE) == Digest(INNER)
  {
    hide Compress, BigEndian, Zeros, Digest, XorAll, BlockKey, KnownW, Sha256Spec.Sha256;
    var last: Block := MESSAGE + [0x80] + Zeros(27) + BigEndian(736, 8);
    InnerKeyWords(XorAll(BlockKey(KEY), 0x36));
    InnerKeyBlock(XorAll(BlockKey(KEY), 0x36));
    MessageWords(last);
    MessageBlock(last);
    TwoBlocks(XorAll(BlockKey(KEY), 0x36), MESSAGE, last);
  }

  lemma OuterHash()
    ensures Sha256Spec.Sha256(XorAll(BlockKey(KEY), 0x5c) + Digest(INNER)) == MAC
  {
    hide Compress, BigEndian, Zeros, Digest, XorAll, BlockKey, KnownW, Sha256Spec.Sha256;
    var last: Block := Digest(INNER) + [0x80] + Zeros(23) + BigEndian(768, 8);
    OuterKeyWords(XorAll(BlockKey(KEY), 0x5c));
    OuterKeyBlock(XorAll(BlockKey(KEY), 0x5c));
    DigestWords(last);
    DigestBlock(last);
    TwoBlocks(XorAll(BlockKey(KEY), 0x5c), Digest(INNER), last);
    MacBytes();
  }

  lemma MacBytes()
    ensures Digest(Regs(0x5bdcc146, 0xbf60754e, 0x6a042426, 0x089575c7, 0x5a003f08, 0x9d273983, 0x9dec58b9, 0x64ec3843)) == MAC
  {
    hide Join, BytesOfAll;
    var r := Regs(0x5bdcc146, 0xbf60754e, 0x6a042426, 0x089575c7, 0x5a003f08, 0x9d273983, 0x9dec58b9, 0x64ec3843);
    MacJoins();
    BytesAre(r.Words(), MAC);
  }

  lemma MacJoins()
    ensures Join(0x5b, 0xdc, 0xc1, 0x46) == 0x5bdcc146
    ensures Join(0xbf, 0x60, 0x75, 0x4e) == 0xbf60754e
    ensures Join(0x6a, 0x04, 0x24, 0x26) == 0x6a042426
    ensures Join(0x08, 0x95, 0x75, 0xc7) == 0x089575c7
    ensures Join(0x5a, 0x00, 0x3f, 0x08) == 0x5a003f08
    ensures Join(0x9d, 0x27, 0x39, 0x83) == 0x9d273983
    ensures Join(0x9d, 0xec, 0x58, 0xb9) == 0x9dec58b9
    ensures Join(0x64, 0xec, 0x38, 0x43) == 0x64ec3843
  {}

  /** The known answer. */
  lemma KnownMac()
    ensures HmacOf(KEY, MESSAGE) == MAC
  {
    hide Digest, XorAll, BlockKey, Sha256Spec.Sha256;
    InnerHash();
    OuterHash();
  }
}
