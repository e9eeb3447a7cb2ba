/** A published known answer of the cipher: the key "Key" turns "Plaintext" into
  * BB F3 16 E8 D9 40 AF 0A D3.
  *
  * The rounds of the key set-up are taken in blocks of six.  Row0 to Row15 are the
  * contents of the box after each block, and every round says where j comes to stand.
  */
module Rc4Vector {
  import opened Rc4

  const KEY: string := "Key"

  /** What one round exchanges: x at the round's own position, y at j. */
  datatype Trade = T(x: nat, j: nat, y: nat)

  /** Box and j after n rounds of the set-up. */
  ghost predicate At(n: nat, b: seq<nat>, j: nat) {
    n <= 256 && Mixed(KEY, n) == (b, j)
  }

  /** The bytes of the key, over and over. */
  function Letter(n: nat): (k: nat)
    ensures k == KeyByte(KEY, n)
  {
    if n % 3 == 0 then 75 else if n % 3 == 1 then 101 else 121
  }

  lemma {:induction false} Round(b: seq<nat>, n: nat, j: nat, m: nat) returns (c: seq<nat>)
    requires n < 256 && At(n, b, j) && |b| == 256 && m == (j + b[n] + Letter(n)) % 256
    ensures |c| == 256 && c == b[n := b[m]][m := b[n]] && At(n + 1, c, m)
  {
    c := b[n := b[m]][m := b[n]];
  }

  lemma {:induction false} Starts() returns (b: seq<nat>)
    ensures At(0, b, 0) && Shows(0, b)
  {
    b := Identity();
  }

  // -------------------------------------------------- the box after each block of rounds

  ghost predicate Shows(k: nat, b: seq<nat>) {
    |b| == 256 && forall p: nat | p < 256 :: b[p] == Byte(k, p)
  }

  /** Byte p of the box after block k. */
  function Byte(k: nat, p: nat): nat {
    if p < 16 then Row0(k, p) else if p < 32 then Row1(k, p - 16) else if p < 48 then Row2(k, p - 32) else
    if p < 64 then Row3(k, p - 48) else if p < 80 then Row4(k, p - 64) else if p < 96 then Row5(k, p - 80) else
    if p < 112 then Row6(k, p - 96) else if p < 128 then Row7(k, p - 112) else if p < 144 then Row8(k, p - 128) else
    if p < 160 then Row9(k, p - 144) else if p < 176 then Row10(k, p - 160) else if p < 192 then Row11(k, p - 176) else
    if p < 208 then Row12(k, p - 192) else if p < 224 then Row13(k, p - 208) else if p < 240 then Row14(k, p - 224) else
    if p < 256 then Row15(k, p - 240) else 0
  }

  function Row0(k: nat, c: int): nat {
    if c == 0 then (if k < 1 then 0 else 75) else
    if c == 1 then (if k < 1 then 1 else if k < 27 then 177 else if k < 39 then 156 else 51) else
    if c == 2 then (if k < 1 then 2 else if k < 37 then 44 else 132) else
    if c == 3 then (if k < 1 then 3 else if k < 10 then 122 else if k < 27 then 58 else 157) else
    if c == 4 then (if k < 1 then 4 else if k < 8 then 227 else if k < 12 then 46 else if k < 13 then 31
      else if k < 33 then 76 else 192) else
    if c == 5 then (if k < 1 then 5 else if k < 3 then 97 else if k < 34 then 16 else 200) else
    if c == 6 then (if k < 2 then 6 else if k < 26 then 178 else 29) else
    if c == 7 then (if k < 2 then 7 else if k < 29 then 30 else 168) else
    if c == 8 then (if k < 2 then 8 else if k < 13 then 159 else 74) else if c == 9 then (if k < 2 then 9 else 243) else
    if c == 10 then (if k < 2 then 10 else if k < 22 then 98 else 131) else
    if c == 11 then (if k < 2 then 11 else if k < 16 then 230 else if k < 39 then 94 else 228) else
    if c == 12 then (if k < 3 then 12 else if k < 40 then 61 else 18) else
    if c == 13 then (if k < 3 then 13 else if k < 19 then 175 else 112) else
    if c == 14 then (if k < 3 then 14 else if k < 22 then 54 else 130) else
    if c == 15 then (if k < 3 then 15 else 144) else 0
  }

  function Row1(k: nat, c: int): nat {
    if c == 0 then (if k < 3 then 16 else if k < 16 then 97 else 91) else
    if c == 1 then (if k < 3 then 17 else 143) else if c == 2 then (if k < 4 then 18 else 236) else
    if c == 3 then (if k < 4 then 19 else if k < 20 then 100 else if k < 21 then 67 else if k < 43 then 10 else 34) else
    if c == 4 then (if k < 4 then 20 else if k < 24 then 241 else if k < 28 then 17 else if k < 40 then 167
      else 41) else
    if c == 5 then (if k < 4 then 21 else if k < 29 then 81 else if k < 31 then 169 else 185) else
    if c == 6 then (if k < 4 then 22 else 204) else if c == 7 then (if k < 4 then 23 else 92) else
    if c == 8 then (if k < 5 then 24 else 191) else
    if c == 9 then (if k < 5 then 25 else if k < 34 then 12 else if k < 37 then 201 else 216) else
    if c == 10 then (if k < 5 then 26 else if k < 26 then 208 else if k < 32 then 155 else 186) else
    if c == 11 then (if k < 5 then 27 else 14) else
    if c == 12 then (if k < 5 then 28 else if k < 15 then 183 else if k < 28 then 87 else 110) else
    if c == 13 then (if k < 5 then 29 else 77) else if c == 14 then (if k < 2 then 30 else if k < 6 then 7 else 8) else
    if c == 15 then (if k < 6 then 31 else 35) else 0
  }

  function Row2(k: nat, c: int): nat {
    if c == 0 then (if k < 6 then 32 else 188) else
    if c == 1 then (if k < 6 then 33 else if k < 23 then 40 else if k < 36 then 136 else 27) else
    if c == 2 then (if k < 6 then 34 else if k < 14 then 13 else if k < 18 then 39 else 103) else
    if c == 3 then (if k < 6 then 35 else if k < 23 then 71 else 137) else
    if c == 4 then (if k < 7 then 36 else 182) else if c == 5 then (if k < 7 then 37 else 64) else
    if c == 6 then (if k < 7 then 38 else if k < 34 then 223 else 59) else
    if c == 7 then (if k < 7 then 39 else if k < 9 then 21 else if k < 22 then 48 else 105) else
    if c == 8 then (if k < 6 then 40 else if k < 7 then 33 else 215) else
    if c == 9 then (if k < 7 then 41 else if k < 17 then 121 else if k < 42 then 99 else 247) else
    if c == 10 then (if k < 8 then 42 else 238) else if c == 11 then (if k < 8 then 43 else 126) else
    if c == 12 then (if k < 1 then 44 else if k < 8 then 2 else if k < 42 then 249 else 138) else
    if c == 13 then (if k < 8 then 45 else if k < 9 then 113 else if k < 35 then 53 else 26) else
    if c == 14 then (if k < 8 then 46 else 227) else
    if c == 15 then (if k < 8 then 47 else if k < 10 then 172 else 55) else 0
  }

  function Row3(k: nat, c: int): nat {
    if c == 0 then (if k < 9 then 48 else 21) else
    if c == 1 then (if k < 9 then 49 else if k < 12 then 189 else if k < 40 then 68 else if k < 41 then 125
      else 84) else
    if c == 2 then (if k < 9 then 50 else 104) else
    if c == 3 then (if k < 9 then 51 else if k < 14 then 11 else 78) else
    if c == 4 then (if k < 9 then 52 else if k < 18 then 127 else if k < 23 then 107 else 135) else
    if c == 5 then (if k < 9 then 53 else 113) else
    if c == 6 then (if k < 3 then 54 else if k < 5 then 14 else if k < 10 then 27 else if k < 43 then 147 else 255) else
    if c == 7 then (if k < 10 then 55 else 172) else
    if c == 8 then (if k < 10 then 56 else if k < 19 then 224 else if k < 29 then 111 else if k < 38 then 170
      else 56) else
    if c == 9 then (if k < 10 then 57 else if k < 28 then 19 else if k < 37 then 164 else 89) else
    if c == 10 then (if k < 10 then 58 else if k < 32 then 122 else 187) else
    if c == 11 then (if k < 10 then 59 else 28) else if c == 12 then (if k < 11 then 60 else 62) else
    if c == 13 then (if k < 3 then 61 else if k < 5 then 12 else if k < 11 then 25 else 32) else
    if c == 14 then (if k < 11 then 62 else 45) else if c == 15 then (if k < 11 then 63 else 65) else 0
  }

  function Row4(k: nat, c: int): nat {
    if c == 0 then (if k < 7 then 64 else if k < 11 then 37 else if k < 31 then 133 else 36) else
    if c == 1 then (if k < 11 then 65 else 251) else
    if c == 2 then (if k < 12 then 66 else if k < 27 then 22 else 152) else
    if c == 3 then (if k < 12 then 67 else 116) else if c == 4 then (if k < 12 then 68 else 189) else
    if c == 5 then (if k < 12 then 69 else if k < 13 then 193 else if k < 27 then 73 else 7) else
    if c == 6 then (if k < 12 then 70 else 108) else
    if c == 7 then (if k < 6 then 71 else if k < 12 then 31 else 46) else
    if c == 8 then (if k < 13 then 72 else if k < 16 then 151 else if k < 34 then 93 else 202) else
    if c == 9 then (if k < 13 then 73 else if k < 28 then 193 else 162) else
    if c == 10 then (if k < 13 then 74 else 159) else
    if c == 11 then (if k < 1 then 75 else if k < 13 then 0 else 83) else
    if c == 12 then (if k < 13 then 76 else 31) else
    if c == 13 then (if k < 5 then 77 else if k < 13 then 29 else 154) else
    if c == 14 then (if k < 14 then 78 else 11) else if c == 15 then (if k < 14 then 79 else 231) else 0
  }

  function Row5(k: nat, c: int): nat {
    if c == 0 then (if k < 14 then 80 else if k < 16 then 176 else if k < 18 then 90 else 106) else
    if c == 1 then (if k < 4 then 81 else if k < 7 then 21 else if k < 14 then 39 else 13) else
    if c == 2 then (if k < 14 then 82 else 0) else
    if c == 3 then (if k < 13 then 83 else if k < 14 then 0 else 217) else
    if c == 4 then (if k < 15 then 84 else 20) else
    if c == 5 then (if k < 15 then 85 else if k < 37 then 171 else if k < 39 then 218 else 229) else
    if c == 6 then (if k < 15 then 86 else if k < 18 then 3 else 102) else
    if c == 7 then (if k < 15 then 87 else if k < 20 then 183 else if k < 30 then 115 else 118) else
    if c == 8 then (if k < 15 then 88 else 82) else if c == 9 then (if k < 15 then 89 else 85) else
    if c == 10 then (if k < 16 then 90 else 176) else if c == 11 then (if k < 16 then 91 else 97) else
    if c == 12 then (if k < 4 then 92 else if k < 16 then 23 else if k < 27 then 160 else if k < 36 then 161
      else 214) else
    if c == 13 then (if k < 16 then 93 else 151) else
    if c == 14 then (if k < 16 then 94 else if k < 30 then 230 else 6) else
    if c == 15 then (if k < 16 then 95 else 4) else 0
  }

  function Row6(k: nat, c: int): nat {
    if c == 0 then (if k < 17 then 96 else 142) else
    if c == 1 then (if k < 1 then 97 else if k < 17 then 5 else if k < 21 then 248 else if k < 41 then 120
      else 245) else
    if c == 2 then (if k < 2 then 98 else if k < 17 then 10 else if k < 23 then 123 else 134) else
    if c == 3 then (if k < 17 then 99 else if k < 23 then 121 else if k < 33 then 37 else 60) else
    if c == 4 then (if k < 4 then 100 else if k < 10 then 19 else if k < 17 then 57 else if k < 25 then 199
      else if k < 38 then 145 else 225) else
    if c == 5 then (if k < 17 then 101 else 165) else if c == 6 then (if k < 18 then 102 else 3) else
    if c == 7 then (if k < 18 then 103 else 39) else
    if c == 8 then (if k < 9 then 104 else if k < 18 then 50 else if k < 32 then 205 else 86) else
    if c == 9 then (if k < 18 then 105 else if k < 39 then 129 else 101) else
    if c == 10 then (if k < 18 then 106 else 90) else if c == 11 then (if k < 18 then 107 else 127) else
    if c == 12 then (if k < 12 then 108 else if k < 19 then 70 else 197) else
    if c == 13 then (if k < 19 then 109 else 72) else
    if c == 14 then (if k < 19 then 110 else if k < 25 then 43 else if k < 36 then 15 else 117) else
    if c == 15 then (if k < 19 then 111 else if k < 25 then 224 else 146) else 0
  }

  function Row7(k: nat, c: int): nat {
    if c == 0 then (if k < 19 then 112 else if k < 29 then 175 else 47) else
    if c == 1 then (if k < 8 then 113 else if k < 11 then 45 else if k < 19 then 60 else if k < 33 then 194
      else 195) else
    if c == 2 then (if k < 20 then 114 else if k < 40 then 52 else 42) else
    if c == 3 then (if k < 20 then 115 else if k < 22 then 183 else 128) else
    if c == 4 then (if k < 12 then 116 else if k < 20 then 67 else 100) else
    if c == 5 then (if k < 20 then 117 else if k < 43 then 211 else 253) else
    if c == 6 then (if k < 20 then 118 else 174) else
    if c == 7 then (if k < 20 then 119 else if k < 35 then 158 else 209) else
    if c == 8 then (if k < 21 then 120 else if k < 41 then 248 else 25) else
    if c == 9 then (if k < 7 then 121 else if k < 21 then 41 else 239) else
    if c == 10 then (if k < 1 then 122 else if k < 15 then 3 else if k < 21 then 86 else if k < 22 then 190
      else 114) else
    if c == 11 then (if k < 17 then 123 else if k < 21 then 10 else if k < 37 then 67 else 219) else
    if c == 12 then (if k < 21 then 124 else 244) else if c == 13 then (if k < 21 then 125 else 234) else
    if c == 14 then (if k < 8 then 126 else if k < 19 then 43 else if k < 22 then 110 else 163) else
    if c == 15 then (if k < 9 then 127 else if k < 20 then 52 else if k < 22 then 114 else 190) else 0
  }

  function Row8(k: nat, c: int): nat {
    if c == 0 then (if k < 22 then 128 else 183) else
    if c == 1 then (if k < 18 then 129 else if k < 22 then 105 else if k < 40 then 48 else 235) else
    if c == 2 then (if k < 22 then 130 else 54) else if c == 3 then (if k < 22 then 131 else 98) else
    if c == 4 then (if k < 23 then 132 else if k < 26 then 88 else 153) else
    if c == 5 then (if k < 11 then 133 else if k < 23 then 37 else 121) else
    if c == 6 then (if k < 23 then 134 else 123) else
    if c == 7 then (if k < 23 then 135 else if k < 35 then 107 else if k < 38 then 50 else 38) else
    if c == 8 then (if k < 23 then 136 else 40) else
    if c == 9 then (if k < 23 then 137 else if k < 31 then 71 else 180) else
    if c == 10 then (if k < 24 then 138 else if k < 30 then 96 else 179) else
    if c == 11 then (if k < 24 then 139 else if k < 39 then 232 else 139) else
    if c == 12 then (if k < 24 then 140 else if k < 34 then 237 else 203) else
    if c == 13 then (if k < 24 then 141 else 70) else
    if c == 14 then (if k < 17 then 142 else if k < 24 then 96 else 5) else
    if c == 15 then (if k < 3 then 143 else if k < 24 then 17 else if k < 26 then 241 else if k < 37 then 109
      else if k < 42 then 221 else 24) else
    0
  }

  function Row9(k: nat, c: int): nat {
    if c == 0 then (if k < 3 then 144 else if k < 25 then 15 else 43) else
    if c == 1 then (if k < 25 then 145 else 199) else if c == 2 then (if k < 25 then 146 else 224) else
    if c == 3 then (if k < 10 then 147 else if k < 25 then 27 else 213) else
    if c == 4 then (if k < 25 then 148 else if k < 35 then 206 else if k < 36 then 148 else 210) else
    if c == 5 then (if k < 25 then 149 else 220) else
    if c == 6 then (if k < 26 then 150 else if k < 29 then 49 else 173) else
    if c == 7 then (if k < 13 then 151 else if k < 19 then 72 else if k < 26 then 109 else 241) else
    if c == 8 then (if k < 26 then 152 else 23) else if c == 9 then (if k < 26 then 153 else 88) else
    if c == 10 then (if k < 13 then 154 else if k < 26 then 29 else if k < 33 then 178 else 196) else
    if c == 11 then (if k < 26 then 155 else if k < 39 then 208 else 79) else
    if c == 12 then (if k < 27 then 156 else if k < 41 then 177 else 242) else
    if c == 13 then (if k < 27 then 157 else 58) else
    if c == 14 then (if k < 20 then 158 else if k < 27 then 119 else 9) else
    if c == 15 then (if k < 2 then 159 else if k < 6 then 8 else if k < 27 then 7 else 73) else 0
  }

  function Row10(k: nat, c: int): nat {
    if c == 0 then (if k < 16 then 160 else if k < 26 then 23 else if k < 27 then 152 else if k < 33 then 22
      else 141) else
    if c == 1 then (if k < 27 then 161 else 160) else if c == 2 then (if k < 28 then 162 else 193) else
    if c == 3 then (if k < 22 then 163 else if k < 28 then 110 else if k < 31 then 87 else 181) else
    if c == 4 then (if k < 28 then 164 else 19) else
    if c == 5 then (if k < 17 then 165 else if k < 28 then 101 else 233) else
    if c == 6 then (if k < 28 then 166 else if k < 42 then 124 else 63) else
    if c == 7 then (if k < 28 then 167 else if k < 30 then 17 else 80) else
    if c == 8 then (if k < 29 then 168 else 30) else if c == 9 then (if k < 29 then 169 else 81) else
    if c == 10 then (if k < 29 then 170 else 111) else
    if c == 11 then (if k < 15 then 171 else if k < 29 then 89 else if k < 38 then 149 else 226) else
    if c == 12 then (if k < 8 then 172 else if k < 29 then 47 else 175) else
    if c == 13 then (if k < 29 then 173 else if k < 32 then 49 else 150) else
    if c == 14 then (if k < 20 then 174 else if k < 30 then 118 else if k < 33 then 115 else if k < 35 then 69
      else 207) else
    if c == 15 then (if k < 3 then 175 else if k < 6 then 13 else if k < 30 then 34 else 222) else 0
  }

  function Row11(k: nat, c: int): nat {
    if c == 0 then (if k < 14 then 176 else if k < 30 then 80 else 17) else
    if c == 1 then (if k < 1 then 177 else if k < 30 then 1 else 119) else
    if c == 2 then (if k < 2 then 178 else if k < 30 then 6 else 230) else
    if c == 3 then (if k < 30 then 179 else 96) else if c == 4 then (if k < 31 then 180 else 71) else
    if c == 5 then (if k < 31 then 181 else 87) else
    if c == 6 then (if k < 7 then 182 else if k < 31 then 36 else 133) else
    if c == 7 then (if k < 5 then 183 else if k < 10 then 28 else if k < 31 then 59 else 198) else
    if c == 8 then (if k < 31 then 184 else 95) else if c == 9 then (if k < 31 then 185 else 169) else
    if c == 10 then (if k < 32 then 186 else 155) else
    if c == 11 then (if k < 32 then 187 else if k < 36 then 122 else 212) else
    if c == 12 then (if k < 6 then 188 else if k < 11 then 32 else if k < 32 then 25 else 66) else
    if c == 13 then (if k < 9 then 189 else if k < 26 then 49 else if k < 32 then 150 else 49) else
    if c == 14 then (if k < 21 then 190 else if k < 32 then 86 else 205) else
    if c == 15 then (if k < 5 then 191 else if k < 32 then 24 else 2) else 0
  }

  function Row12(k: nat, c: int): nat {
    if c == 0 then (if k < 33 then 192 else 76) else
    if c == 1 then (if k < 12 then 193 else if k < 33 then 69 else 115) else
    if c == 2 then (if k < 19 then 194 else if k < 33 then 60 else 37) else
    if c == 3 then (if k < 33 then 195 else 194) else
    if c == 4 then (if k < 33 then 196 else if k < 34 then 178 else 57) else
    if c == 5 then (if k < 19 then 197 else if k < 24 then 70 else if k < 33 then 141 else 22) else
    if c == 6 then (if k < 31 then 198 else if k < 34 then 59 else 223) else
    if c == 7 then (if k < 17 then 199 else if k < 34 then 57 else 178) else
    if c == 8 then (if k < 34 then 200 else 16) else if c == 9 then (if k < 34 then 201 else 12) else
    if c == 10 then (if k < 34 then 202 else 93) else if c == 11 then (if k < 34 then 203 else 237) else
    if c == 12 then (if k < 4 then 204 else if k < 12 then 22 else if k < 32 then 66 else if k < 35 then 25
      else 240) else
    if c == 13 then (if k < 18 then 205 else if k < 35 then 50 else if k < 42 then 107 else 33) else
    if c == 14 then (if k < 25 then 206 else if k < 35 then 148 else 206) else
    if c == 15 then (if k < 35 then 207 else 69) else 0
  }

  function Row13(k: nat, c: int): nat {
    if c == 0 then (if k < 5 then 208 else if k < 35 then 26 else 53) else
    if c == 1 then (if k < 35 then 209 else 158) else if c == 2 then (if k < 36 then 210 else 148) else
    if c == 3 then (if k < 20 then 211 else if k < 36 then 117 else 15) else
    if c == 4 then (if k < 36 then 212 else 122) else
    if c == 5 then (if k < 25 then 213 else if k < 36 then 27 else 136) else
    if c == 6 then (if k < 36 then 214 else 161) else
    if c == 7 then (if k < 7 then 215 else if k < 36 then 33 else 246) else
    if c == 8 then (if k < 37 then 216 else 201) else
    if c == 9 then (if k < 14 then 217 else if k < 15 then 82 else if k < 23 then 88 else if k < 37 then 132
      else 44) else
    if c == 10 then (if k < 37 then 218 else 171) else if c == 11 then (if k < 37 then 219 else 67) else
    if c == 12 then (if k < 25 then 220 else if k < 29 then 149 else if k < 37 then 89 else if k < 38 then 164
      else 184) else
    if c == 13 then (if k < 37 then 221 else 109) else
    if c == 14 then (if k < 30 then 222 else if k < 38 then 34 else 252) else
    if c == 15 then (if k < 7 then 223 else if k < 38 then 38 else 50) else 0
  }

  function Row14(k: nat, c: int): nat {
    if c == 0 then (if k < 10 then 224 else if k < 38 then 56 else 170) else
    if c == 1 then (if k < 38 then 225 else 145) else if c == 2 then (if k < 38 then 226 else 149) else
    if c == 3 then (if k < 1 then 227 else if k < 16 then 4 else if k < 31 then 95 else if k < 38 then 184
      else if k < 40 then 164 else 140) else
    if c == 4 then (if k < 39 then 228 else 94) else if c == 5 then (if k < 39 then 229 else 218) else
    if c == 6 then (if k < 2 then 230 else if k < 9 then 11 else if k < 39 then 51 else 156) else
    if c == 7 then (if k < 14 then 231 else if k < 39 then 79 else 208) else
    if c == 8 then (if k < 24 then 232 else if k < 39 then 139 else if k < 41 then 232 else 1) else
    if c == 9 then (if k < 28 then 233 else if k < 39 then 101 else 129) else
    if c == 10 then (if k < 21 then 234 else if k < 40 then 125 else 68) else
    if c == 11 then (if k < 40 then 235 else 48) else
    if c == 12 then (if k < 4 then 236 else if k < 40 then 18 else if k < 43 then 61 else 254) else
    if c == 13 then (if k < 24 then 237 else if k < 40 then 140 else 164) else
    if c == 14 then (if k < 8 then 238 else if k < 40 then 42 else if k < 42 then 52 else 250) else
    if c == 15 then (if k < 21 then 239 else if k < 40 then 41 else 167) else 0
  }

  function Row15(k: nat, c: int): nat {
    if c == 0 then (if k < 35 then 240 else if k < 41 then 25 else 248) else
    if c == 1 then (if k < 4 then 241 else if k < 15 then 20 else if k < 41 then 84 else 125) else
    if c == 2 then (if k < 41 then 242 else 177) else
    if c == 3 then (if k < 2 then 243 else if k < 27 then 9 else if k < 30 then 119 else if k < 41 then 1 else 166) else
    if c == 4 then (if k < 21 then 244 else if k < 28 then 124 else if k < 41 then 166 else 232) else
    if c == 5 then (if k < 41 then 245 else 120) else
    if c == 6 then (if k < 36 then 246 else if k < 42 then 33 else 107) else
    if c == 7 then (if k < 42 then 247 else 99) else
    if c == 8 then (if k < 17 then 248 else if k < 24 then 5 else if k < 42 then 138 else 249) else
    if c == 9 then (if k < 8 then 249 else if k < 32 then 2 else if k < 42 then 24 else 221) else
    if c == 10 then (if k < 42 then 250 else 52) else
    if c == 11 then (if k < 11 then 251 else if k < 42 then 63 else 124) else
    if c == 12 then (if k < 38 then 252 else if k < 43 then 34 else 10) else
    if c == 13 then (if k < 43 then 253 else 211) else if c == 14 then (if k < 43 then 254 else 61) else
    if c == 15 then (if k < 43 then 255 else 147) else 0
  }

  // ------------------------------------------------------------------------ the rounds

  lemma {:induction false} Block1(b: seq<nat>) returns (c: seq<nat>)
    requires At(0, b, 0) && Shows(0, b)
    ensures At(6, c, 97) && Shows(1, c)
  {
    hide At;
    c := Round(b, 0, 0, 75); c := Round(c, 1, 75, 177); c := Round(c, 2, 177, 44); c := Round(c, 3, 44, 122);
    c := Round(c, 4, 122, 227); c := Round(c, 5, 227, 97);
  }

  lemma {:induction false} Block2(b: seq<nat>) returns (c: seq<nat>)
    requires At(6, b, 97) && Shows(1, b)
    ensures At(12, c, 230) && Shows(2, c)
  {
    hide At;
    c := Round(b, 6, 97, 178); c := Round(c, 7, 178, 30); c := Round(c, 8, 30, 159); c := Round(c, 9, 159, 243);
    c := Round(c, 10, 243, 98); c := Round(c, 11, 98, 230);
  }

  lemma {:induction false} Block3(b: seq<nat>) returns (c: seq<nat>)
    requires At(12, b, 230) && Shows(2, b)
    ensures At(18, c, 143) && Shows(3, c)
  {
    hide At;
    c := Round(b, 12, 230, 61); c := Round(c, 13, 61, 175); c := Round(c, 14, 175, 54); c := Round(c, 15, 54, 144);
    c := Round(c, 16, 144, 5); c := Round(c, 17, 5, 143);
  }

  lemma {:induction false} Block4(b: seq<nat>) returns (c: seq<nat>)
    requires At(18, b, 143) && Shows(3, b)
    ensures At(24, c, 92) && Shows(4, c)
  {
    hide At;
    c := Round(b, 18, 143, 236); c := Round(c, 19, 236, 100); c := Round(c, 20, 100, 241); c := Round(c, 21, 241, 81);
    c := Round(c, 22, 81, 204); c := Round(c, 23, 204, 92);
  }

  lemma {:induction false} Block5(b: seq<nat>) returns (c: seq<nat>)
    requires At(24, b, 92) && Shows(4, b)
    ensures At(30, c, 77) && Shows(5, c)
  {
    hide At;
    c := Round(b, 24, 92, 191); c := Round(c, 25, 191, 61); c := Round(c, 26, 61, 208); c := Round(c, 27, 208, 54);
    c := Round(c, 28, 54, 183); c := Round(c, 29, 183, 77);
  }

  lemma {:induction false} Block6(b: seq<nat>) returns (c: seq<nat>)
    requires At(30, b, 77) && Shows(5, b)
    ensures At(36, c, 71) && Shows(6, c)
  {
    hide At;
    c := Round(b, 30, 77, 159); c := Round(c, 31, 159, 35); c := Round(c, 32, 35, 188); c := Round(c, 33, 188, 40);
    c := Round(c, 34, 40, 175); c := Round(c, 35, 175, 71);
  }

  lemma {:induction false} Block7(b: seq<nat>) returns (c: seq<nat>)
    requires At(36, b, 71) && Shows(6, b)
    ensures At(42, c, 121) && Shows(7, c)
  {
    hide At;
    c := Round(b, 36, 71, 182); c := Round(c, 37, 182, 64); c := Round(c, 38, 64, 223); c := Round(c, 39, 223, 81);
    c := Round(c, 40, 81, 215); c := Round(c, 41, 215, 121);
  }

  lemma {:induction false} Block8(b: seq<nat>) returns (c: seq<nat>)
    requires At(42, b, 121) && Shows(7, b)
    ensures At(48, c, 172) && Shows(8, c)
  {
    hide At;
    c := Round(b, 42, 121, 238); c := Round(c, 43, 238, 126); c := Round(c, 44, 126, 249); c := Round(c, 45, 249, 113);
    c := Round(c, 46, 113, 4); c := Round(c, 47, 4, 172);
  }

  lemma {:induction false} Block9(b: seq<nat>) returns (c: seq<nat>)
    requires At(48, b, 172) && Shows(8, b)
    ensures At(54, c, 45) && Shows(9, c)
  {
    hide At;
    c := Round(b, 48, 172, 39); c := Round(c, 49, 39, 189); c := Round(c, 50, 189, 104); c := Round(c, 51, 104, 230);
    c := Round(c, 52, 230, 127); c := Round(c, 53, 127, 45);
  }

  lemma {:induction false} Block10(b: seq<nat>) returns (c: seq<nat>)
    requires At(54, b, 45) && Shows(9, b)
    ensures At(60, c, 183) && Shows(10, c)
  {
    hide At;
    c := Round(b, 54, 45, 147); c := Round(c, 55, 147, 47); c := Round(c, 56, 47, 224); c := Round(c, 57, 224, 100);
    c := Round(c, 58, 100, 3); c := Round(c, 59, 3, 183);
  }

  lemma {:induction false} Block11(b: seq<nat>) returns (c: seq<nat>)
    requires At(60, b, 183) && Shows(10, b)
    ensures At(66, c, 63) && Shows(11, c)
  {
    hide At;
    c := Round(b, 60, 183, 62); c := Round(c, 61, 62, 188); c := Round(c, 62, 188, 113); c := Round(c, 63, 113, 251);
    c := Round(c, 64, 251, 133); c := Round(c, 65, 133, 63);
  }

  lemma {:induction false} Block12(b: seq<nat>) returns (c: seq<nat>)
    requires At(66, b, 63) && Shows(11, b)
    ensures At(72, c, 4) && Shows(12, c)
  {
    hide At;
    c := Round(b, 66, 63, 204); c := Round(c, 67, 204, 116); c := Round(c, 68, 116, 49); c := Round(c, 69, 49, 193);
    c := Round(c, 70, 193, 108); c := Round(c, 71, 108, 4);
  }

  lemma {:induction false} Block13(b: seq<nat>) returns (c: seq<nat>)
    requires At(72, b, 4) && Shows(12, b)
    ensures At(78, c, 154) && Shows(13, c)
  {
    hide At;
    c := Round(b, 72, 4, 151); c := Round(c, 73, 151, 69); c := Round(c, 74, 69, 8); c := Round(c, 75, 8, 83);
    c := Round(c, 76, 83, 4); c := Round(c, 77, 4, 154);
  }

  lemma {:induction false} Block14(b: seq<nat>) returns (c: seq<nat>)
    requires At(78, b, 154) && Shows(13, b)
    ensures At(84, c, 82) && Shows(14, c)
  {
    hide At;
    c := Round(b, 78, 154, 51); c := Round(c, 79, 51, 231); c := Round(c, 80, 231, 176); c := Round(c, 81, 176, 34);
    c := Round(c, 82, 34, 217); c := Round(c, 83, 217, 82);
  }

  lemma {:induction false} Block15(b: seq<nat>) returns (c: seq<nat>)
    requires At(84, b, 82) && Shows(14, b)
    ensures At(90, c, 171) && Shows(15, c)
  {
    hide At;
    c := Round(b, 84, 82, 241); c := Round(c, 85, 241, 171); c := Round(c, 86, 171, 122); c := Round(c, 87, 122, 28);
    c := Round(c, 88, 28, 217); c := Round(c, 89, 217, 171);
  }

  lemma {:induction false} Block16(b: seq<nat>) returns (c: seq<nat>)
    requires At(90, b, 171) && Shows(15, b)
    ensures At(96, c, 227) && Shows(16, c)
  {
    hide At;
    c := Round(b, 90, 171, 80); c := Round(c, 91, 80, 16); c := Round(c, 92, 16, 160); c := Round(c, 93, 160, 72);
    c := Round(c, 94, 72, 11); c := Round(c, 95, 11, 227);
  }

  lemma {:induction false} Block17(b: seq<nat>) returns (c: seq<nat>)
    requires At(96, b, 227) && Shows(16, b)
    ensures At(102, c, 165) && Shows(17, c)
  {
    hide At;
    c := Round(b, 96, 227, 142); c := Round(c, 97, 142, 248); c := Round(c, 98, 248, 123); c := Round(c, 99, 123, 41);
    c := Round(c, 100, 41, 199); c := Round(c, 101, 199, 165);
  }

  lemma {:induction false} Block18(b: seq<nat>) returns (c: seq<nat>)
    requires At(102, b, 165) && Shows(17, b)
    ensures At(108, c, 52) && Shows(18, c)
  {
    hide At;
    c := Round(b, 102, 165, 86); c := Round(c, 103, 86, 34); c := Round(c, 104, 34, 205); c := Round(c, 105, 205, 129);
    c := Round(c, 106, 129, 80); c := Round(c, 107, 80, 52);
  }

  lemma {:induction false} Block19(b: seq<nat>) returns (c: seq<nat>)
    requires At(108, b, 52) && Shows(18, b)
    ensures At(114, c, 194) && Shows(19, c)
  {
    hide At;
    c := Round(b, 108, 52, 197); c := Round(c, 109, 197, 151); c := Round(c, 110, 151, 126);
    c := Round(c, 111, 126, 56); c := Round(c, 112, 56, 13); c := Round(c, 113, 13, 194);
  }

  lemma {:induction false} Block20(b: seq<nat>) returns (c: seq<nat>)
    requires At(114, b, 194) && Shows(19, b)
    ensures At(120, c, 158) && Shows(20, c)
  {
    hide At;
    c := Round(b, 114, 194, 127); c := Round(c, 115, 127, 87); c := Round(c, 116, 87, 19); c := Round(c, 117, 19, 211);
    c := Round(c, 118, 211, 174); c := Round(c, 119, 174, 158);
  }

  lemma {:induction false} Block21(b: seq<nat>) returns (c: seq<nat>)
    requires At(120, b, 158) && Shows(20, b)
    ensures At(126, c, 234) && Shows(21, c)
  {
    hide At;
    c := Round(b, 120, 158, 97); c := Round(c, 121, 97, 239); c := Round(c, 122, 239, 190); c := Round(c, 123, 190, 19);
    c := Round(c, 124, 19, 244); c := Round(c, 125, 244, 234);
  }

  lemma {:induction false} Block22(b: seq<nat>) returns (c: seq<nat>)
    requires At(126, b, 234) && Shows(21, b)
    ensures At(132, c, 10) && Shows(22, c)
  {
    hide At;
    c := Round(b, 126, 234, 163); c := Round(c, 127, 163, 122); c := Round(c, 128, 122, 115);
    c := Round(c, 129, 115, 39); c := Round(c, 130, 39, 14); c := Round(c, 131, 14, 10);
  }

  lemma {:induction false} Block23(b: seq<nat>) returns (c: seq<nat>)
    requires At(132, b, 10) && Shows(22, b)
    ensures At(138, c, 35) && Shows(23, c)
  {
    hide At;
    c := Round(b, 132, 10, 217); c := Round(c, 133, 217, 99); c := Round(c, 134, 99, 98); c := Round(c, 135, 98, 52);
    c := Round(c, 136, 52, 33); c := Round(c, 137, 33, 35);
  }

  lemma {:induction false} Block24(b: seq<nat>) returns (c: seq<nat>)
    requires At(138, b, 35) && Shows(23, b)
    ensures At(144, c, 20) && Shows(24, c)
  {
    hide At;
    c := Round(b, 138, 35, 248); c := Round(c, 139, 248, 232); c := Round(c, 140, 232, 237);
    c := Round(c, 141, 237, 197); c := Round(c, 142, 197, 138); c := Round(c, 143, 138, 20);
  }

  lemma {:induction false} Block25(b: seq<nat>) returns (c: seq<nat>)
    requires At(144, b, 20) && Shows(24, b)
    ensures At(150, c, 220) && Shows(25, c)
  {
    hide At;
    c := Round(b, 144, 20, 110); c := Round(c, 145, 110, 100); c := Round(c, 146, 100, 111);
    c := Round(c, 147, 111, 213); c := Round(c, 148, 213, 206); c := Round(c, 149, 206, 220);
  }

  lemma {:induction false} Block26(b: seq<nat>) returns (c: seq<nat>)
    requires At(150, b, 220) && Shows(25, b)
    ensures At(156, c, 26) && Shows(26, c)
  {
    hide At;
    c := Round(b, 150, 220, 189); c := Round(c, 151, 189, 143); c := Round(c, 152, 143, 160);
    c := Round(c, 153, 160, 132); c := Round(c, 154, 132, 6); c := Round(c, 155, 6, 26);
  }

  lemma {:induction false} Block27(b: seq<nat>) returns (c: seq<nat>)
    requires At(156, b, 26) && Shows(26, b)
    ensures At(162, c, 92) && Shows(27, c)
  {
    hide At;
    c := Round(b, 156, 26, 1); c := Round(c, 157, 1, 3); c := Round(c, 158, 3, 243); c := Round(c, 159, 243, 69);
    c := Round(c, 160, 69, 66); c := Round(c, 161, 66, 92);
  }

  lemma {:induction false} Block28(b: seq<nat>) returns (c: seq<nat>)
    requires At(162, b, 92) && Shows(27, b)
    ensures At(168, c, 20) && Shows(28, c)
  {
    hide At;
    c := Round(b, 162, 92, 73); c := Round(c, 163, 73, 28); c := Round(c, 164, 28, 57); c := Round(c, 165, 57, 233);
    c := Round(c, 166, 233, 244); c := Round(c, 167, 244, 20);
  }

  lemma {:induction false} Block29(b: seq<nat>) returns (c: seq<nat>)
    requires At(168, b, 20) && Shows(28, b)
    ensures At(174, c, 150) && Shows(29, c)
  {
    hide At;
    c := Round(b, 168, 20, 7); c := Round(c, 169, 7, 21); c := Round(c, 170, 21, 56); c := Round(c, 171, 56, 220);
    c := Round(c, 172, 220, 112); c := Round(c, 173, 112, 150);
  }

  lemma {:induction false} Block30(b: seq<nat>) returns (c: seq<nat>)
    requires At(174, b, 150) && Shows(29, b)
    ensures At(180, c, 138) && Shows(30, c)
  {
    hide At;
    c := Round(b, 174, 150, 87); c := Round(c, 175, 87, 222); c := Round(c, 176, 222, 167);
    c := Round(c, 177, 167, 243); c := Round(c, 178, 243, 94); c := Round(c, 179, 94, 138);
  }

  lemma {:induction false} Block31(b: seq<nat>) returns (c: seq<nat>)
    requires At(180, b, 138) && Shows(30, b)
    ensures At(186, c, 21) && Shows(31, c)
  {
    hide At;
    c := Round(b, 180, 138, 137); c := Round(c, 181, 137, 163); c := Round(c, 182, 163, 64);
    c := Round(c, 183, 64, 198); c := Round(c, 184, 198, 227); c := Round(c, 185, 227, 21);
  }

  lemma {:induction false} Block32(b: seq<nat>) returns (c: seq<nat>)
    requires At(186, b, 21) && Shows(31, b)
    ensures At(192, c, 249) && Shows(32, c)
  {
    hide At;
    c := Round(b, 186, 21, 26); c := Round(c, 187, 26, 58); c := Round(c, 188, 58, 204); c := Round(c, 189, 204, 173);
    c := Round(c, 190, 173, 104); c := Round(c, 191, 104, 249);
  }

  lemma {:induction false} Block33(b: seq<nat>) returns (c: seq<nat>)
    requires At(192, b, 249) && Shows(32, b)
    ensures At(198, c, 160) && Shows(33, c)
  {
    hide At;
    c := Round(b, 192, 249, 4); c := Round(c, 193, 4, 174); c := Round(c, 194, 174, 99); c := Round(c, 195, 99, 113);
    c := Round(c, 196, 113, 154); c := Round(c, 197, 154, 160);
  }

  lemma {:induction false} Block34(b: seq<nat>) returns (c: seq<nat>)
    requires At(198, b, 160) && Shows(33, b)
    ensures At(204, c, 140) && Shows(34, c)
  {
    hide At;
    c := Round(b, 198, 160, 38); c := Round(c, 199, 38, 196); c := Round(c, 200, 196, 5); c := Round(c, 201, 5, 25);
    c := Round(c, 202, 25, 72); c := Round(c, 203, 72, 140);
  }

  lemma {:induction false} Block35(b: seq<nat>) returns (c: seq<nat>)
    requires At(204, b, 140) && Shows(34, b)
    ensures At(210, c, 119) && Shows(35, c)
  {
    hide At;
    c := Round(b, 204, 140, 240); c := Round(c, 205, 240, 135); c := Round(c, 206, 135, 148);
    c := Round(c, 207, 148, 174); c := Round(c, 208, 174, 45); c := Round(c, 209, 45, 119);
  }

  lemma {:induction false} Block36(b: seq<nat>) returns (c: seq<nat>)
    requires At(210, b, 119) && Shows(35, b)
    ensures At(216, c, 246) && Shows(36, c)
  {
    hide At;
    c := Round(b, 210, 119, 148); c := Round(c, 211, 148, 110); c := Round(c, 212, 110, 187);
    c := Round(c, 213, 187, 33); c := Round(c, 214, 33, 92); c := Round(c, 215, 92, 246);
  }

  lemma {:induction false} Block37(b: seq<nat>) returns (c: seq<nat>)
    requires At(216, b, 246) && Shows(36, b)
    ensures At(222, c, 143) && Shows(37, c)
  {
    hide At;
    c := Round(b, 216, 246, 25); c := Round(c, 217, 25, 2); c := Round(c, 218, 2, 85); c := Round(c, 219, 85, 123);
    c := Round(c, 220, 123, 57); c := Round(c, 221, 57, 143);
  }

  lemma {:induction false} Block38(b: seq<nat>) returns (c: seq<nat>)
    requires At(222, b, 143) && Shows(37, b)
    ensures At(228, c, 220) && Shows(38, c)
  {
    hide At;
    c := Round(b, 222, 143, 252); c := Round(c, 223, 252, 135); c := Round(c, 224, 135, 56);
    c := Round(c, 225, 56, 100); c := Round(c, 226, 100, 171); c := Round(c, 227, 171, 220);
  }

  lemma {:induction false} Block39(b: seq<nat>) returns (c: seq<nat>)
    requires At(228, b, 220) && Shows(38, b)
    ensures At(234, c, 105) && Shows(39, c)
  {
    hide At;
    c := Round(b, 228, 220, 11); c := Round(c, 229, 11, 85); c := Round(c, 230, 85, 1); c := Round(c, 231, 1, 155);
    c := Round(c, 232, 155, 139); c := Round(c, 233, 139, 105);
  }

  lemma {:induction false} Block40(b: seq<nat>) returns (c: seq<nat>)
    requires At(234, b, 105) && Shows(39, b)
    ensures At(240, c, 20) && Shows(40, c)
  {
    hide At;
    c := Round(b, 234, 105, 49); c := Round(c, 235, 49, 129); c := Round(c, 236, 129, 12); c := Round(c, 237, 12, 227);
    c := Round(c, 238, 227, 114); c := Round(c, 239, 114, 20);
  }

  lemma {:induction false} Block41(b: seq<nat>) returns (c: seq<nat>)
    requires At(240, b, 20) && Shows(40, b)
    ensures At(246, c, 97) && Shows(41, c)
  {
    hide At;
    c := Round(b, 240, 20, 120); c := Round(c, 241, 120, 49); c := Round(c, 242, 49, 156); c := Round(c, 243, 156, 232);
    c := Round(c, 244, 232, 243); c := Round(c, 245, 243, 97);
  }

  lemma {:induction false} Block42(b: seq<nat>) returns (c: seq<nat>)
    requires At(246, b, 97) && Shows(41, b)
    ensures At(252, c, 166) && Shows(42, c)
  {
    hide At;
    c := Round(b, 246, 97, 205); c := Round(c, 247, 205, 41); c := Round(c, 248, 41, 44); c := Round(c, 249, 44, 143);
    c := Round(c, 250, 143, 238); c := Round(c, 251, 238, 166);
  }

  lemma {:induction false} Block43(b: seq<nat>) returns (c: seq<nat>)
    requires At(252, b, 166) && Shows(42, b)
    ensures At(256, c, 54) && Shows(43, c)
  {
    hide At;
    c := Round(b, 252, 166, 19); c := Round(c, 253, 19, 117); c := Round(c, 254, 117, 236); c := Round(c, 255, 236, 54);
  }

  /** The whole set-up. */
  lemma {:induction false} SetsUp() returns (b: seq<nat>)
    ensures At(256, b, 54) && Shows(43, b)
  {
    hide *;
    b := Starts();
    b := Block1(b); b := Block2(b); b := Block3(b); b := Block4(b); b := Block5(b); b := Block6(b); b := Block7(b);
    b := Block8(b); b := Block9(b); b := Block10(b); b := Block11(b); b := Block12(b); b := Block13(b); b := Block14(b);
    b := Block15(b); b := Block16(b); b := Block17(b); b := Block18(b); b := Block19(b); b := Block20(b);
    b := Block21(b); b := Block22(b); b := Block23(b); b := Block24(b); b := Block25(b); b := Block26(b);
    b := Block27(b); b := Block28(b); b := Block29(b); b := Block30(b); b := Block31(b); b := Block32(b);
    b := Block33(b); b := Block34(b); b := Block35(b); b := Block36(b); b := Block37(b); b := Block38(b);
    b := Block39(b); b := Block40(b); b := Block41(b); b := Block42(b); b := Block43(b);
  }

  // --------------------------------------------------------------------- the keystream

  ghost predicate Past(n: nat, b: seq<nat>, j: nat) {
    |b| == 256 && After(KEY, n) == State(n, j, b)
  }

  /** The next byte of the keystream. */
  lemma {:induction false} Turn(b: seq<nat>, n: nat, j: nat, t: Trade, g: nat) returns (c: seq<nat>)
    requires n < 255 && Past(n, b, j) && |b| == 256 && b[n + 1] == t.x
    requires t.j == (j + t.x) % 256 && b[t.j] == t.y
    requires b[n + 1 := t.y][t.j := t.x][(t.x + t.y) % 256] == g
    ensures |c| == 256 && c == b[n + 1 := t.y][t.j := t.x] && Past(n + 1, c, t.j) && Stream(KEY, n) == g
  {
    hide Permutation, Mixed, Keyed, Ready;
    c := b[n + 1 := t.y][t.j := t.x];
    assert After(KEY, n + 1) == Next(After(KEY, n));
    assert After(KEY, n + 1) == State(n + 1, t.j, c);
    assert c[n + 1] + c[t.j] == t.x + t.y;
  }

  lemma {:induction false} KeyBegins(b: seq<nat>, j: nat)
    requires At(256, b, j)
    ensures |b| == 256 && Past(0, b, 0)
  {
    assert |Mixed(KEY, SIZE).0| == SIZE;
    hide Permutation, Mixed;
  }

  /** The bytes of the box that the first nine turns look at. */
  ghost predicate Looked(b: seq<nat>) {
    && |b| == 256
    && b[1] == 51 && b[2] == 132 && b[3] == 157 && b[4] == 192 && b[5] == 200 && b[6] == 29 && b[7] == 168 && b[8] == 74
    && b[9] == 243 && b[20] == 41 && b[51] == 78 && b[72] == 202 && b[74] == 159 && b[84] == 20 && b[122] == 114
    && b[128] == 183 && b[129] == 235 && b[161] == 160 && b[177] == 119 && b[183] == 198 && b[220] == 184
    && b[222] == 252 && b[233] == 129 && b[235] == 48 && b[239] == 167 && b[249] == 221 && b[250] == 52
  }

  lemma {:induction false} ShowsLooked(b: seq<nat>)
    requires Shows(43, b)
    ensures Looked(b)
  {
  }

  lemma {:induction false} FirstBytes(b: seq<nat>)
    requires Past(0, b, 0) && Looked(b)
    ensures Stream(KEY, 0) == 235 && Stream(KEY, 1) == 159 && Stream(KEY, 2) == 119 && Stream(KEY, 3) == 129
    ensures Stream(KEY, 4) == 183 && Stream(KEY, 5) == 52 && Stream(KEY, 6) == 202 && Stream(KEY, 7) == 114
    ensures Stream(KEY, 8) == 167
  {
    hide Past, Stream;
    var c := Turn(b, 0, 0, T(51, 51, 78), 235); c := Turn(c, 1, 51, T(132, 183, 198), 159);
    c := Turn(c, 2, 183, T(157, 84, 20), 119); c := Turn(c, 3, 84, T(192, 20, 41), 129);
    c := Turn(c, 4, 20, T(200, 220, 184), 183); c := Turn(c, 5, 220, T(29, 249, 221), 52);
    c := Turn(c, 6, 249, T(168, 161, 160), 202); c := Turn(c, 7, 161, T(74, 235, 48), 114);
    c := Turn(c, 8, 235, T(243, 222, 252), 167);
  }

  /** "Plaintext" under "Key". */
  lemma {:induction false} KnownAnswer()
    ensures Encoded("Key", [0x50, 0x6C, 0x61, 0x69, 0x6E, 0x74, 0x65, 0x78, 0x74])
      == [0xBB, 0xF3, 0x16, 0xE8, 0xD9, 0x40, 0xAF, 0x0A, 0xD3]
  {
    hide At, Shows, Past, Stream, Looked;
    var b := SetsUp();
    KeyBegins(b, 54);
    ShowsLooked(b);
    FirstBytes(b);
  }
}
