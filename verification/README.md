# Dropbear and LibTomMath: a verified model

A Dafny model of the parts of the bundled SSH implementation and its big-number library whose correctness
does not show in any one function, with proofs over all inputs and all runs:

* big-number kernels on digit arrays: Montgomery reduction, comba multiplication, squaring and high half, the
  binary inverse, and the helpers under them (`MpInt`, `SignedInt`, `Montgomery`, `Comba`, `InvMod`,
  `DigitInverse`, on `Digits` and `Arith`);
* DSS and RSA signing and verification, algebra and byte layout (`Dss`, `Rsa`, on `Modular`, `Bytes`, `Buffer`);
* channels: windows, circular buffers, EOF and CLOSE, first as functions on one side's state (`ChannelModel`,
  `ChannelKeeps`), then two peers over FIFO links (`ChannelPair`), what they do get done (`ChannelProgress`), and the class whose methods update the fields
  in place and are proved equal to those functions (`CircBuffer`, `Channel`, `ChannelTable`);
* packets: padding, encryption, MAC and reassembly under any chunking and with keys changing between packets
  (`Framing`, `FramingRun`), over a link that alters bytes (`FramingAltered`, `FramingReplay`), and the sending and
  receiving halves in place (`Packet`), with the linked write queue (`Queue`);
* key exchanges over a whole session: held replies, key switches, gates (`Rekey`, `RekeyKeeps`, `RekeyGuards`), client and
  server together (`RekeyPair`), which value a reply answers (`RekeyAnswers`, and from the two programs' tables
  `RekeyTables`), whole exchanges and the runs that go wrong (`RekeyRun`), and the session in place (`Session`);
* algorithm negotiation and guessing (`Negotiation`), the exchange hash and the keys drawn from it
  (`KeyExchange`), the private-key encoding (`Der`).

Conventions. The digit width d, the storage width and the word width w are parameters (`MpInts.Config`); B is 2^d.
A method result `ok == false`, or an outcome `Exit`, stands where the source calls `dropbear_exit` or fails a
`dropbear_assert`. `Crash` stands where it would dereference null. Randomness, the kernel's answers to `read`
and `write`, hashes, ciphers and MACs are inputs: SHA-1 any function with 20-byte results, a cipher any pair
`enc`/`dec` that may depend on all ciphertext so far, a MAC any function of sequence number and text. Fields
named as history (`out`, `taken`, `asked`, ...) only record what happened; `gens` also numbers the generations of keys.
In `Rekey` a Diffie-Hellman value is a number drawn by the environment, and a host key signature is found good
exactly when the client's value it covers is the client's own. In `RekeyTables` each side reads the same tables in
every exchange, and the client's first key exchange is the one it guesses with (common-kex.c:153, common-algo.c:217).

Run `dafny verify dfyconfig.toml`; the project needs Dafny 4.11.

Findings, where the code does not do what its comments or the standards say:

* `fast_mp_invmod` copies the sign of a onto the result, so for a < 0 it returns an inverse of -a
  (`InvMod.InverseFound`); when b divides a it does not return (`InvMod.NeverFinishes`).
* An mpint of value zero is written as one zero byte (`Buffers.ZeroTakesOneByte`); the standard has no bytes.
* `buf_dss_verify` asks for the inverse of the s half of a signature without looking whether it is zero: it
  returns exactly when that half is not (`Dss.VerifyReturns`, from `InvMod.ReturnsExactly`).
* A guessed packet is judged over two lists, the key exchanges and the host keys. The two sides come to different
  verdicts exactly when the client's first usable names of both lists are names of the server and one of its two
  first entries is disabled (`Negotiation.IgnoredIffResent`; for one list `Negotiation.GuessAgreesExactly`, with an
  input in `Negotiation.GuessesDiffer`). Then, if the method the client's first usable entry names is another than
  the one guessed, and is one at all, a session can end over the host key signature, the reply answering a value the
  client offers no longer, and otherwise none can (`RekeyTables.TablesAnswer`; the run is
  `RekeyRun.DisagreementEnds`). If it is the one guessed, the client sends the same value again (cli-kex.c:46), and
  the session can only end on the server, over the second KEXDH_INIT (`RekeyTables.TablesRefuse`,
  `RekeyRun.SecondInitEnds`). The program itself disables only host keys of the server (svr-runopts.c:379) and the
  client's none cipher (cli-session.c:146), so its own client tables never meet the condition.
* A client that starts a key exchange of its own sends a guess with it and from then on takes only KEXDH_REPLY or
  KEXINIT, so data the server had on its way ends the session (`RekeyRun.GuessedRekeyEnds`; a run that comes to it
  is `RekeyRun.RekeyUnderData`).
* Sequence numbers come round after 2^32 packets: under the same keys a packet can then be replayed, and with fewer
  it cannot (`FramingReplay.SafeExactly`). The program asks for new keys after 2^30 bytes or eight hours
  (common-session.c:404-408), each packet being 16 bytes at least.
* What `encrypt_packet` reserves leaves the room meant for compression alone exactly for block sizes up to 12 and
  from 16 (`Framing.CompressionRoom`); at 13, 14 and 15 a one-byte payload uses some of it. The ciphers of the
  source have blocks of 8 or 16 bytes only, so this does not occur.
* The number of a multi-byte BER identifier is read from the identifier's first byte on: a header is read back as
  it was written exactly for ids up to 30 (`Der.HeaderRoundTrip`), also in 32 bits (`Der.WrappedRoundTrip`). The
  program writes only ids 2 and 16.

## Model

| member | source | states |
|---|---|---|
| `Montgomery.FastMontgomeryReduce` | reconos/dropbear/libtommath/bn_fast_mp_montgomery_reduce.c:26-167 | For any digit width d and word width w, every odd n of k < 2^(w-2d) digits, rho with rho*n = -1 mod B and 0 <= x < n*B^k: afterwards x is below n, in normal form, and x*B^k equals the old x modulo n. |
| `Montgomery.ShiftedSum` | reconos/dropbear/libtommath/bn_fast_mp_montgomery_reduce.c:37-160 | Before the conditional subtraction the shifted sum is (old x + n*q)/B^k with q < B^k, so it is below 2n and one subtraction is enough. |
| `Montgomery.ReduceRound` | reconos/dropbear/libtommath/bn_fast_mp_montgomery_reduce.c:68-111 | One row: the lowest column is cleared by mu, its carry moved up, and the columns still stand for x plus a multiple of n. |
| `Montgomery.RoundKeepsReduced` | reconos/dropbear/libtommath/bn_fast_mp_montgomery_reduce.c:68-111 | The invariant of the rows, including the bound on every column. |
| `Montgomery.ColumnsFit` | reconos/dropbear/libtommath/bn_fast_mp_montgomery_reduce.c:68-111 | With fewer than 2^(w-2d) products a column and its incoming carry stay below 2^w, for all d and w. |
| `Montgomery.MuClearsColumn` | reconos/dropbear/libtommath/bn_fast_mp_montgomery_reduce.c:69-76 | mu makes the lowest column a multiple of B. |
| `Montgomery.PropagateCarries` | reconos/dropbear/libtommath/bn_fast_mp_montgomery_reduce.c:121-131 | The delayed carries: afterwards the low digits of the columns are the digits of the same number; the unset word past the end is never part of it. |
| `Montgomery.NormalisedValue` | reconos/dropbear/libtommath/bn_fast_mp_montgomery_reduce.c:121-131 | Normalising columns from the bottom preserves the number they stand for, up to the carry out. |
| `Montgomery.BelowTwiceModulus` | reconos/dropbear/libtommath/bn_fast_mp_montgomery_reduce.c:159-166 | The sum is below 2n. |
| `Montgomery.CongruentAfter` | reconos/dropbear/libtommath/bn_fast_mp_montgomery_reduce.c:159-166 | The sum, with or without n subtracted, times B^k is x modulo n. |
| `Comba.FastMulDigs` | reconos/dropbear/libtommath/bn_fast_s_mp_mul_digs.c:34-102 | The magnitude of c is |a|*|b| mod B^digs, in normal form, whatever the word copied past the computed columns holds; c may be a or b. |
| `Comba.AddColumn` | reconos/dropbear/libtommath/bn_fast_s_mp_mul_digs.c:52-81 | One column: every partial sum stays below 2^w, the carry out is at most n*(B-1). |
| `Comba.ColumnsAreProduct` | reconos/dropbear/libtommath/bn_fast_s_mp_mul_digs.c:48-81 | The columns, weighted, add up to the product. |
| `Comba.AccumulatorFits` | reconos/dropbear/libtommath/bn_fast_s_mp_mul_digs.c:66-80 | A column of i <= n products plus a carry of at most n*(B-1) is below 2^w when n <= 2^(w-2d). |
| `Comba.CarryStays` | reconos/dropbear/libtommath/bn_fast_s_mp_mul_digs.c:76-80 | The carry out of such a column is again at most n*(B-1). |
| `Comba.FastSqr` | reconos/dropbear/libtommath/bn_fast_s_mp_sqr.c:28-109 | The magnitude of b is |a|*|a|, the number FastMulDigs gives for a times a; b may be a. |
| `Comba.SquareColumnInto` | reconos/dropbear/libtommath/bn_fast_s_mp_sqr.c:42-88 | Half a column, doubled, plus the middle square and the carry, is the whole column, and none of the sums wraps. |
| `Comba.SquareColumn` | reconos/dropbear/libtommath/bn_fast_s_mp_sqr.c:50-80 | The pairing law behind it: cross terms occur twice, the middle term once. |
| `Comba.FastMulHighDigs` | reconos/dropbear/libtommath/bn_fast_s_mp_mul_high_digs.c:27-93 | Digits below digs are left alone, and only they need be digits beforehand; from digs up c holds the sum of column(i)*B^(i-digs), no carry taken from below. |
| `Comba.HighHalfBound` | reconos/dropbear/libtommath/bn_fast_s_mp_mul_high_digs.c:41-84 | That high part never exceeds floor(a*b/B^digs) and falls short of it by less than n*(B-1). |
| `Comba.LowColumnsBound` | reconos/dropbear/libtommath/bn_fast_s_mp_mul_high_digs.c:41-84 | The dropped low columns amount to at most n*(B-1)*(B^digs - 1). |
| `DigitInverse.FastMpInvmod` | reconos/dropbear/libtommath/bn_fast_mp_invmod.c:24-143 | On digit arrays, for every odd b > 0 that does not divide a (and every even b): terminates, answers exactly what InvMod.Inverse answers, puts it in normal form, and leaves c alone on failure; c may be a or b. |
| `InvMod.InverseFound` | reconos/dropbear/libtommath/bn_fast_mp_invmod.c:24-143 | That answer: none for even b, an inverse exactly when a and b are coprime, and then a*c = 1 mod b if and only if a >= 0, with c >= 0; for a < 0 the copied sign makes c an inverse of -a. |
| `DigitInverse.RoundOnce` | reconos/dropbear/libtommath/bn_fast_mp_invmod.c:58-120 | One pass on the digit arrays is one pass on the numbers, no array shared or lost. |
| `DigitInverse.StripTwos` | reconos/dropbear/libtommath/bn_fast_mp_invmod.c:60-75 | The factors of two leave u, its cofactor halved with it. |
| `DigitInverse.LiftUp` | reconos/dropbear/libtommath/bn_fast_mp_invmod.c:130-136 | The modulus is added until the result is not negative. |
| `InvMod.RoundKeeps` | reconos/dropbear/libtommath/bn_fast_mp_invmod.c:58-120 | A pass keeps u = B*a and v = D*a mod b and the common divisors of u and v, and u+v falls. |
| `InvMod.StripKeeps` | reconos/dropbear/libtommath/bn_fast_mp_invmod.c:60-94 | Halving u together with its cofactor keeps the same facts. |
| `InvMod.Start` | reconos/dropbear/libtommath/bn_fast_mp_invmod.c:34-56 | The loop starts in the invariant. |
| `InvMod.Finish` | reconos/dropbear/libtommath/bn_fast_mp_invmod.c:117-128 | When u is zero, v is 1 exactly when a and b are coprime. |
| `InvMod.NeverFinishes` | reconos/dropbear/libtommath/bn_fast_mp_invmod.c:58-120 | When b divides a no number of passes reaches the exit, so the excluded case is the one in which the source does not return. |
| `InvMod.ReturnsExactly` | reconos/dropbear/libtommath/bn_fast_mp_invmod.c:58-120 | For odd b the exit is reached if and only if b does not divide a. |
| `MpInts.SMpSub` | reconos/dropbear/libtommath/bn_s_mp_sub.c:20-83 | The magnitude of c is |a| - |b| when |b| <= |a|, with the borrow taken from the top bit of the wrapped difference; c may be a or b. |
| `MpInts.BorrowStep` | reconos/dropbear/libtommath/bn_s_mp_sub.c:50-62 | The top bit of the wrapped digit difference is the borrow and the mask is the digit, for all storage widths. |
| `SignedInts.SMpAdd` | reconos/dropbear/libtommath/bn_s_mp_add.c:19-104 | The magnitude of c is |a| + |b|, no digit sum wraps, c may be a or b. |
| `SignedInts.MpSub` | reconos/dropbear/libtommath/bn_mp_sub.c:19-53 | c = a - b for all signs, in normal form, c may be a or b. |
| `SignedInts.MpAdd` | reconos/dropbear/libtommath/bn_mp_add.c:19-47 | c = a + b for all signs. |
| `SignedInts.MpCmp` | reconos/dropbear/libtommath/bn_mp_cmp.c:19-38 | The order of the signed numbers. |
| `SignedInts.Parity` | reconos/dropbear/libtommath/tommath.h:222-223 | The lowest digit decides whether a number is even or odd. |
| `MpInts.CmpMag` | reconos/dropbear/libtommath/bn_mp_cmp_mag.c:19-50 | On normal forms the answer is the order of the magnitudes. |
| `MpInts.CountBits` | reconos/dropbear/libtommath/bn_mp_count_bits.c:19-40 | The bit length: 2^(r-1) <= x < 2^r, and 0 for zero. |
| `MpInts.MpDiv2` | reconos/dropbear/libtommath/bn_mp_div_2.c:19-63 | The magnitude of b is floor(|a|/2), the sign follows a, b may be a. |
| `MpInts.Clamp` | reconos/dropbear/libtommath/bn_mp_clamp.c:25-39 | Leading zero digits go, the value stays, zero becomes positive. |
| `MpInts.Grow` | reconos/dropbear/libtommath/bn_mp_grow.c:19-52 | At least the asked size, old digits kept, new ones zero. |
| `Dss.BufPutDssSign` | reconos/dropbear/dss.c:263-357 | The bytes written hold r and s with s*k = H + x*r mod q, each padded to twenty bytes; it fails exactly when k is not invertible, a number is too long or the buffer too small. |
| `Dss.BufDssVerify` | reconos/dropbear/dss.c:164-258 | Accepts exactly the 40-byte blobs with r, s < q, s invertible and (g^(H*w) * y^(r*w) mod p) mod q = r for the inverse w of s; for a good key exactly the blobs that are a signature of the hash with some nonce. |
| `Dss.VerifyReturns` | reconos/dropbear/dss.c:202-213 | For a blob of 40 bytes whose s half is below q, the inverse the verifier asks for is answered if and only if that half is not zero. |
| `Dss.OneInverse` | reconos/dropbear/dss.c:202-240 | Which inverse of s is used makes no difference to the answer. |
| `Dss.DssExactly` | reconos/dropbear/dss.c:202-246 | For a good key and all numbers r and s > 0: the pair is accepted if and only if some nonce k gives it. |
| `Dss.DssSound` | reconos/dropbear/dss.c:202-246 | The nonce of an accepted pair, w*(H + x*r) mod q. |
| `Dss.DssComplete` | reconos/dropbear/dss.c:164-258 | For every key with q prime below 2^160, g^q = 1 and y = g^x mod p, every hash and every nonce giving s != 0, the verifier accepts. |
| `Dss.DssBytesAccepted` | reconos/dropbear/dss.c:325-349 | The same at the level of bytes: what the signer lays out parses to the pair and is accepted, whatever follows it. |
| `Dss.PutPadded` | reconos/dropbear/dss.c:325-349 | A number in exactly n bytes, leading zeros first. |
| `Rsa.BufPutRsaSign` | reconos/dropbear/rsa.c:273-365 | Blinded signing writes em^d mod n in exactly the length of n, for every blinding value coprime to n, and fails exactly when the blinding value is not invertible or the buffer too small. |
| `Rsa.BlindingCancels` | reconos/dropbear/rsa.c:292-325 | For every r invertible mod n the blinded computation equals em^d mod n. |
| `Rsa.RsaPadEm` | reconos/dropbear/rsa.c:379-422 | The padded message 01 FF.. 00 prefix hash, one byte shorter than n, and so below n. |
| `Rsa.PaddedByPosition` | reconos/dropbear/rsa.c:379-422 | The padded message byte by byte: 01, ff up to the 00, the fifteen bytes of the DigestInfo prefix, and the hash in the last twenty; section 9.2.1 of RFC 2437. |
| `Rsa.PaddedApart` | reconos/dropbear/rsa.c:395-420 | Two hashes are padded to the same number if and only if they are equal. |
| `Rsa.EmBelowModulus` | reconos/dropbear/rsa.c:395-420 | A string one byte shorter than n stands for less than n. |
| `Rsa.BufRsaVerify` | reconos/dropbear/rsa.c:216-267 | Accepts exactly when the length equals that of n, the rest of the buffer is a number s below n and s^e mod n is the padded message; for a good key exactly when s is the padded hash to the power of d mod n. |
| `Rsa.VerifiesExactly` | reconos/dropbear/rsa.c:232-261 | For a good key the number that verifies is em^d mod n and no other. |
| `Rsa.OneHash` | reconos/dropbear/rsa.c:232-261 | Bytes accepted for two hashes mean equal hashes. |
| `Rsa.RsaBytesVerify` | reconos/dropbear/rsa.c:216-267 | What the signer writes is what the verifier accepts. |
| `Buffers.Buffer.PutMpint` | reconos/dropbear/buffer.c:282-322 | Writes the mpint of the number at the position, over what was there; refused for a negative number or a full buffer. |
| `Buffers.Buffer.GetMpint` | reconos/dropbear/buffer.c:327-352 | Success, failure and exit on every byte string, and how much is consumed. |
| `Buffers.MpintRoundTrip` | reconos/dropbear/buffer.c:282-352 | For every x of at most 1030 bytes reading undoes writing and consumes exactly what was written, whatever follows. |
| `Buffers.MpintMinimal` | reconos/dropbear/buffer.c:282-322 | For x > 0 no other string with a clear sign bit that stands for x is as short. |
| `Buffers.SignClear` | reconos/dropbear/buffer.c:297-318 | The sign bit of an encoding is clear. |
| `Buffers.ZeroTakesOneByte` | reconos/dropbear/buffer.c:282-322 | Zero is written as one zero byte, not as the empty string of section 5 of RFC 4251. |
| `Buffers.BinSize` | reconos/dropbear/libtommath/bn_mp_count_bits.c:19-40 | The byte count computed from the bit count is the number of bytes written. |
| `Buffers.Buffer.PutBytes` | reconos/dropbear/buffer.c:274-277 | Overwrites at the position, advances it, refused when there is no room. |
| `Buffers.Buffer.PutString` | reconos/dropbear/buffer.c:265-270 | The length, then the bytes. |
| `Buffers.Buffer.GetString` | reconos/dropbear/buffer.c:206-224 | The string and the rest, or exit when it is too long or not all there. |
| `Buffers.OverwriteTwice` | reconos/dropbear/buffer.c:257-277 | Consecutive writes are one write. |
| `CircBuffers.CircBuffer.ReadLen` | reconos/dropbear/circbuffer.c:70-85 | The longest linear run that can be read; its assertion holds in every reachable state. |
| `CircBuffers.CircBuffer.WriteLen` | reconos/dropbear/circbuffer.c:87-103 | The longest linear run that can be written; its assertion holds. |
| `CircBuffers.CircBuffer.Write` | reconos/dropbear/circbuffer.c:113-130 | Appends to the byte sequence held, exactly when the run fits. |
| `CircBuffers.CircBuffer.ReadPtr` | reconos/dropbear/circbuffer.c:105-111 | Shows the oldest bytes of that sequence, exactly when they stand in one run. |
| `CircBuffers.CircBuffer.IncrRead` | reconos/dropbear/circbuffer.c:133-141 | Takes them off it. |
| `CircBuffers.CircBuffer.ModPositions` | reconos/dropbear/circbuffer.c:70-103 | The two positions differ by the bytes used, modulo the size. |
| `CircBuffers.WindowGrows` | reconos/dropbear/circbuffer.c:122-130 | Advancing the write position adds the run behind the window, wrapped or not, to the sequence it shows. |
| `CircBuffers.WindowKept` | reconos/dropbear/circbuffer.c:113-120 | A copy into that run leaves the sequence alone. |
| `CircBuffers.WindowShrinks` | reconos/dropbear/circbuffer.c:133-141 | Advancing the read position drops the oldest bytes. |
| `CircBuffers.WriteAll` | reconos/dropbear/common-channel.c:742-755 | The receive loop appends exactly the payload in at most two passes. |
| `ChannelPair.EveryRunIsSafe` | reconos/dropbear/common-channel.c:424-781 | In every run of two peers over FIFO links "Oversized packet", "Received data after eof", "unknown channel" and every window assertion are unreachable, and the pair invariant holds throughout. |
| `ChannelPair.TakeKeeps` | reconos/dropbear/common-channel.c:202-251 | Every step of either side, own or on receipt, keeps the pair invariant. |
| `ChannelPair.WindowNeverExceeded` | reconos/dropbear/common-channel.c:683-781 | transwindow + data in flight + adjustments in flight <= the receiver recvwindow, equal until data is dropped, and buffered bytes still fit; section 5.2 of RFC 4254. |
| `ChannelPair.WindowNeverDeadlocks` | reconos/dropbear/common-channel.c:449-455 | With nothing in flight, dropped or buffered the sender has more than two thirds of the window. |
| `ChannelPair.DeliveredInOrder` | reconos/dropbear/common-channel.c:709-762 | Per stream: bytes delivered ++ buffered ++ lost ++ in flight = bytes read at the sender, so what is delivered is a prefix of it. |
| `ChannelPair.FreedAfterBothCloses` | reconos/dropbear/common-channel.c:544-578 | A slot is freed only after CLOSE went both ways, nothing for it is then still on its way, and the close handler ran at most once. |
| `ChannelPair.SentInOrder` | reconos/dropbear/common-channel.c:381-419 | At most one EOF and one CLOSE; nothing after CLOSE; no data after EOF. |
| `ChannelPair.StillExpected` | reconos/dropbear/common-channel.c:511-540 | A message that arrives finds its channel present, not closed, and for data not at EOF. |
| `ChannelProgress.OpenedDelivers` | reconos/dropbear/common-channel.c:424-781 | Of two peers just opened, one with a descriptor to read and one with a descriptor to write: for any bytes there is a run after which exactly these have been written out at the other end. |
| `ChannelProgress.AllArrives` | reconos/dropbear/common-channel.c:424-781 | From any quiet state with nothing buffered or lost any bytes can be carried across, however many, and the state is quiet again. |
| `ChannelProgress.RoundDelivers` | reconos/dropbear/common-channel.c:424-781 | One round of read, receive, write and window adjustment delivers a nonempty prefix, as long as window, packet limit and payload buffer allow. |
| `ChannelProgress.LostOnlyWhenClosed` | reconos/dropbear/common-channel.c:725-730 | In every run bytes are lost at a side only when its descriptor for them has been closed, or was not open at the start; for stderr also where it is not taken at all. |
| `ChannelProgress.DataKept` | reconos/dropbear/common-channel.c:742-761 | Data for an open descriptor is stored whole, nothing is lost, and the window shrinks by just as much. |
| `ChannelProgress.ExtDataKept` | reconos/dropbear/common-channel.c:742-761 | The same for stderr. |
| `ChannelProgress.SendsWhatFits` | reconos/dropbear/common-channel.c:611-695 | Of bytes on offer exactly as many as the window, the limit of the peer and the payload buffer allow are sent, which is at least one when the window is open. |
| `ChannelProgress.WritesOut` | reconos/dropbear/common-channel.c:424-461 | What write() takes is delivered and leaves the buffer, and the window is announced exactly when a third of it has been written out. |
| `ChannelProgress.BothFreed` | reconos/dropbear/common-channel.c:273-349 | Two sides with all descriptors closed, in any state that keeps the pair invariant: there is a run after which both slots are free. |
| `ChannelProgress.CloseFrees` | reconos/dropbear/common-channel.c:527-578 | A CLOSE on its way to a side that is over frees its slot, whatever is in front of it. |
| `ChannelProgress.ClosedSaysClose` | reconos/dropbear/common-channel.c:338-349 | With nothing open any more and closing allowed, check_close has sent CLOSE. |
| `ChannelProgress.CloseAnswered` | reconos/dropbear/common-channel.c:301-308 | CLOSE is answered and the channel removed as soon as nothing waits to be written and closing is allowed, the handler having run once. |
| `ChannelProgress.DoneSaysEof` | reconos/dropbear/common-channel.c:331-337 | A side with nothing left to read from has said EOF or CLOSE. |
| `ChannelProgress.EofPassedOn` | reconos/dropbear/common-channel.c:310-314 | Behind EOF the writing side is closed as soon as nothing waits for it. |
| `ChannelProgress.EndedCloses` | reconos/dropbear/common-channel.c:286-349 | A session whose process has ended and whose output has been read to the end closes everything and says CLOSE in one check. |
| `ChannelKeeps.LocalKeeps` | reconos/dropbear/common-channel.c:202-251 | Whatever one side does on its own trips no assertion, keeps its invariant, and the messages it adds account for every counter that moved. |
| `ChannelKeeps.CheckCloseKeeps` | reconos/dropbear/common-channel.c:273-349 | The close machine keeps all of this. |
| `ChannelKeeps.WriteOutKeeps` | reconos/dropbear/common-channel.c:424-461 | recvwindow + recvdonelen + buffered = the window limit, and the three assertions hold. |
| `ChannelKeeps.SendDataKeeps` | reconos/dropbear/common-channel.c:611-695 | Sending moves the window by exactly the bytes sent and never after EOF. |
| `ChannelKeeps.SendCloseKeeps` | reconos/dropbear/common-channel.c:381-403 | CLOSE closes every descriptor and runs the handler once. |
| `Channels.Channel.CloseChanFd` | reconos/dropbear/common-channel.c:948-987 | Which of the three descriptors a shutdown closes. |
| `Channels.Channel.SendMsgChannelData` | reconos/dropbear/common-channel.c:611-695 | The whole new state of the channel, or the failed assertion; a channel in order with the descriptor open never fails one and stays in order, its counters moved by the messages it added. |
| `Channels.Channel.WriteChannel` | reconos/dropbear/common-channel.c:424-461 | The same for writing out, with the circular buffer underneath, the three window assertions included. |
| `Channels.Channel.CommonRecvMsgChannelData` | reconos/dropbear/common-channel.c:709-762 | The whole new state on receiving data, for every exit and assertion. |
| `Channels.Channel.RecvMsgChannelWindowAdjust` | reconos/dropbear/common-channel.c:767-781 | The whole new state on a window adjustment, both caps included. |
| `Channels.Channel.CheckCloseNow` | reconos/dropbear/common-channel.c:273-349 | The same for check_close. |
| `Channels.Channel.SendMsgChannelClose` | reconos/dropbear/common-channel.c:381-403 | The whole new state on sending CLOSE. |
| `Channels.Channel.SendMsgChannelEof` | reconos/dropbear/common-channel.c:406-419 | The same on sending EOF. |
| `Channels.Channel.RecvMsgChannelEof` | reconos/dropbear/common-channel.c:511-523 | The same on receiving EOF. |
| `Channels.Channel.RecvMsgChannelClose` | reconos/dropbear/common-channel.c:527-540 | The same on receiving CLOSE. |
| `Channels.Channel.Pending` | reconos/dropbear/common-channel.c:260-269 | Whether bytes wait for an open descriptor. |
| `Channels.Channel.RemoveChannel` | reconos/dropbear/common-channel.c:544-578 | The handler runs unless it has, and the channel is gone. |
| `ChannelTables.ChannelTable.NewChannel` | reconos/dropbear/common-channel.c:57-176 | From one slot, the lowest free one, three more when there is none, refused exactly when a hundred channels are open; the count stays the number of occupied slots and no other slot changes. |
| `ChannelTables.ChannelTable.RemoveSlot` | reconos/dropbear/common-channel.c:544-578 | The slot is emptied and the count stays exact. |
| `ChannelTables.OccupiedUpdate` | reconos/dropbear/common-channel.c:169-170 | How one slot changes the count. |
| `FramingRun.EveryChunkingDelivers` | reconos/dropbear/packet.c:52-362 | For every list of payloads of 1 to 16384 bytes, every pattern of partial writes and reads, and any keys of block sizes 8 to 252, one set behind each NEWKEYS packet: no packet is refused, what is delivered is a prefix of what was sent, and all of it once the bytes are in. |
| `FramingRun.NeverReadsAhead` | reconos/dropbear/packet.c:163-294 | In every such run the bytes held by read_packet are a prefix of the next packet to deliver, sealed under the keys of as many NEWKEYS as have been delivered: no byte of a packet is ever taken under earlier keys. |
| `FramingRun.ReadKeeps` | reconos/dropbear/packet.c:163-294 | read_packet consumes a prefix of what arrived and stays in step with the sender, across a change of keys too. |
| `FramingRun.PacketOpens` | reconos/dropbear/packet.c:297-362 | A packet that has arrived whole deciphers, passes its MAC under its own sequence number and gives its payload back. |
| `FramingRun.BadMacRefused` | reconos/dropbear/packet.c:322-327 | With any other bytes in place of its MAC a packet that has arrived whole is refused. |
| `FramingRun.InitComplete` | reconos/dropbear/packet.c:227-294 | The first block yields the packet length and passes the three size checks. |
| `FramingRun.ConsumeSends` | reconos/dropbear/packet.c:97-109 | The write loop drops exactly the bytes written from what is pending. |
| `FramingAltered.OnlyWhatWasSent` | reconos/dropbear/packet.c:297-388 | Over a link on which bytes may be altered, dropped, repeated or made up at any time: as long as every right MAC the receiver comes upon is one the sender has computed, of that text with that number under those keys, and fewer than 2^32 packets go out under the same keys, what is delivered is a prefix of what was sent, across key changes. |
| `FramingAltered.WholeIsNext` | reconos/dropbear/packet.c:297-388 | In such a run a whole packet that is not refused carries the text of the next packet sent. |
| `FramingAltered.PayloadsChecked` | reconos/dropbear/packet.c:329-338 | Whatever text comes out of the cipher, a payload delivered has 1 to 32768 bytes. |
| `FramingReplay.WrapReplays` | reconos/dropbear/packet.c:585-612 | Behind 2^32 packets under the same keys, with a cipher without chaining, the bytes of the first put on the link again are delivered once more, no MAC forged. |
| `FramingReplay.SafeExactly` | reconos/dropbear/packet.c:585-612 | So for n packets under the same keys the safety above holds for all keys and all runs if and only if n < 2^32. |
| `Framing.PacketShape` | reconos/dropbear/packet.c:517-582 | Padding 4 to 255, total at least 16 and a multiple of the block size, within the buffer reserved and within what a receiver takes; section 6 of RFC 4253. |
| `Framing.CompressionRoom` | reconos/dropbear/packet.c:517-582 | For every payload the padding stays out of the room reserved for compression, exactly at block sizes up to 12 and from 16. |
| `Framing.DecryptEncrypt` | reconos/dropbear/packet.c:587-597 | Deciphering block by block undoes enciphering, for any mode that depends on the ciphertext so far. |
| `Framing.PayloadFits` | reconos/dropbear/packet.c:329-338 | The unsigned payload length did not wrap, or its check refuses it. |
| `Framing.SizesChecked` | reconos/dropbear/packet.c:275-283 | A packet length taken is 16 bytes and the MAC at least, 35000 at most, and whole blocks. |
| `Packets.Sender.EncryptPacket` | reconos/dropbear/packet.c:515-612 | The packet laid out in the reserved buffer, sealed and queued; no buffer operation exits. |
| `Packets.Sender.EncryptThenSwitch` | reconos/dropbear/common-kex.c:204-222 | The same, with the next keys in use right behind a NEWKEYS, no ciphertext before them and the numbers running on. |
| `Packets.Sender.WritePacket` | reconos/dropbear/packet.c:66-111 | The queue after any number of bytes written, and what is still pending. |
| `Packets.Receiver.ReadPacketInit` | reconos/dropbear/packet.c:227-294 | The first block: state afterwards or exit. |
| `Packets.Receiver.DecryptPacketNow` | reconos/dropbear/packet.c:297-362 | The rest of the packet: state afterwards or exit, a wrong MAC included. |
| `Packets.Receiver.ReadPacketNow` | reconos/dropbear/packet.c:163-221 | Both together. |
| `Packets.Receiver.ProcessPayload` | reconos/dropbear/common-kex.c:225-233 | Behind a NEWKEYS delivered the next keys are in use, before anything more is read. |
| `Queues.Queue.Enqueue` | reconos/dropbear/queue.c:69-87 | The linked list appends one item to the sequence it stands for, and shares no link twice. |
| `Queues.Queue.Dequeue` | reconos/dropbear/queue.c:41-61 | The first item leaves; tail is cleared with the last. |
| `Queues.Queue.Examine` | reconos/dropbear/queue.c:63-67 | The first item, unchanged queue. |
| `Queues.Queue.EmptyMeansZero` | reconos/dropbear/queue.c:36-39 | Head, count and contents agree on emptiness. |
| `RekeyPair.EpochsAgree` | reconos/dropbear/common-kex.c:163-233 | In every run of a client and a server over FIFO links, through any number of key exchanges and with replies held back, the next packet on either link is opened under the key generation, the pair of Diffie-Hellman values and the 32-bit sequence number it was sealed with, nothing absent is dereferenced, and no run ends over an unexpected NEWKEYS, a premature KEXDH_INIT or an out-of-order KEXDH_REPLY; section 7.3 of RFC 4253. |
| `RekeyPair.NeverSpurious` | reconos/dropbear/svr-kex.c:45-67 | A key exchange message that reaches its handler finds the exchange where the handler wants it, on either side. |
| `RekeyPair.NextOpens` | reconos/dropbear/packet.c:585-612 | The same from the invariant. |
| `RekeyPair.ClientPass` | reconos/dropbear/common-session.c:128-231 | One pass of the client loop keeps the pair invariant and dereferences nothing absent. |
| `RekeyPair.ServerPass` | reconos/dropbear/common-session.c:128-231 | One pass of the server loop keeps it. |
| `RekeyPair.ServerReady` | reconos/dropbear/svr-kex.c:45-67 | When NEWKEYS reaches the server its receive keys are waiting, by counting. |
| `RekeyPair.ClientReady` | reconos/dropbear/cli-kex.c:69-124 | When NEWKEYS reaches the client, KEXDH_REPLY was the packet before it and the keys are waiting. |
| `RekeyAnswers.RepliesAnswer` | reconos/dropbear/cli-kex.c:44-124 | In every run in which the server keeps a guess only where the client does, or the client settles on the method it guessed: no signature is ever found bad, in the first case no KEXDH_INIT is refused by the server either, and the reply the client has next answers the value it offers, which is the last KEXDH_INIT of its exchange, dh_e reused or drawn anew. |
| `RekeyAnswers.NextReply` | reconos/dropbear/cli-kex.c:93-115 | The same for the next reply, from the invariant. |
| `RekeyAnswers.ClientAgrees` | reconos/dropbear/cli-session.c:186-222 | One pass of the client keeps that invariant: the values taken in an exchange are the one on offer, and the pass does not end over a signature. |
| `RekeyAnswers.ServerAgrees` | reconos/dropbear/process-packet.c:95-101 | One pass of the server keeps it: what it ignores is what the packets so far make it ignore, and it refuses no KEXDH_INIT unless the client may send the same value twice. |
| `RekeyAnswers.NeverRefused` | reconos/dropbear/process-packet.c:70-101 | From the invariant: a KEXDH_INIT that is next is allowed by the gate of the server, when no guess is kept that the client replaces. |
| `RekeyAnswers.InitTaken` | reconos/dropbear/svr-kex.c:45-67 | A value the server takes while the client is still in that exchange is one of those taken in that exchange. |
| `RekeyTables.TablesAnswer` | reconos/dropbear/common-kex.c:694-838 | For any two programs whose tables both offer kexguess2, the method guessed being that of the first entry of the client: some session ends over the host key signature if and only if the first usable names of the client are both names of the server, one of its first entries is not usable, and the method of its first usable entry is another than the one guessed and is one at all. |
| `RekeyTables.TablesRefuse` | reconos/dropbear/common-kex.c:694-838 | For the same programs: some session ends on the server over a KEXDH_INIT it no longer waits for, exactly when those names are shared, one of those first entries is not usable, and the method is one at all, the guessed one or not. |
| `RekeyTables.TablesPace` | reconos/dropbear/common-kex.c:713-731 | From the tables: when the server keeps no guess that the client replaces, and which method the client then reads. |
| `RekeyTables.SignatureExactly` | reconos/dropbear/cli-kex.c:44-115 | For what the two sides read out of the lists: no session ends over the signature if and only if the server keeps no guess that the client replaces, or the method is the one guessed, so that dh_e is reused. |
| `RekeyTables.SecondInitExactly` | reconos/dropbear/process-packet.c:70-101 | And no session ends on the server over an unexpected KEXDH_INIT if and only if it keeps no guess that the client replaces. |
| `RekeyRun.DisagreementEnds` | reconos/dropbear/cli-kex.c:93-115 | For all values and methods, the client's another than the guessed one: a run in which only the server finds the guess good. The reply answers the guess, the client has offered another value since, and the session ends over the signature. |
| `RekeyRun.SecondInitEnds` | reconos/dropbear/process-packet.c:70-101 | For every method, the guessed one too, the run in which the server meets the second KEXDH_INIT first ends there. |
| `RekeyRun.GuessedRekeyEnds` | reconos/dropbear/cli-kex.c:44-66 | A client that guesses and starts a key exchange ends the session as unexpected on the next packet if and only if that is none of KEXDH_REPLY, KEXINIT, IGNORE, DEBUG, UNIMPLEMENTED and DISCONNECT, so also when it is data sent before. |
| `RekeyRun.RekeyUnderData` | reconos/dropbear/common-session.c:389-420 | That state is reached: for all values drawn, behind the first exchange the server sends channel data, the client starts to rekey before it arrives, and the session ends over it. |
| `RekeyRun.FirstExchange` | reconos/dropbear/common-kex.c:163-233 | The first exchange, packet by packet, with a good guess or without one and for all values drawn, is one of those runs: it ends with the first keys in use both ways, the same exchange behind them on both sides, and data allowed. |
| `RekeyKeeps.RekeyDiscipline` | reconos/dropbear/packet.c:436-448 | Against any peer, no message of type 5, 6, 20 or from 50 up is sealed between our KEXINIT and our NEWKEYS; section 7.1 of RFC 4253. |
| `RekeyKeeps.HeldInOrder` | reconos/dropbear/packet.c:450-487 | Messages of those kinds leave in submission order, none lost or repeated, and a reply queue carried over the top of the loop means data is not allowed. |
| `RekeyKeeps.IterationKeeps` | reconos/dropbear/common-session.c:128-231 | One pass, whatever arrives, keeps the discipline, the order, the counts and the gates. |
| `RekeyKeeps.KexdhReplyKeeps` | reconos/dropbear/cli-kex.c:69-124 | The client completes an exchange only on a reply to the value it offers. |
| `RekeyKeeps.SendNewkeysKeeps` | reconos/dropbear/common-kex.c:204-222 | One NEWKEYS, one new generation, the transmit keys switched right behind it. |
| `RekeyKeeps.RecvNewkeysKeeps` | reconos/dropbear/common-kex.c:225-233 | The receive keys switch exactly once per generation. |
| `RekeyKeeps.RecvKexinitKeeps` | reconos/dropbear/common-kex.c:487-559 | KEXINIT answers with our own if needed; it goes wrong only when one has been handled already. |
| `RekeyGuards.KeysOnlyFrom` | reconos/dropbear/process-packet.c:43-128 | In any state whatever, against any peer: no packet brings new keys but a KEXDH_REPLY to the value the client offers, or on the server a KEXDH_INIT within an exchange, with its values and signature found good. |
| `RekeyGuards.NewkeysNext` | reconos/dropbear/process-packet.c:76-91 | Behind that packet any next one but NEWKEYS and the four taken at any time ends the session. |
| `RekeyGuards.LaterStageRefused` | reconos/dropbear/process-packet.c:103-109 | Before authentication a packet of type above 60 sends nothing and brings no keys: it ends the session unless it is the one to ignore. |
| `RekeyGuards.DisconnectEnds` | reconos/dropbear/process-packet.c:70-72 | DISCONNECT ends the session in any state. |
| `RekeyGuards.KeepaliveLeaves` | reconos/dropbear/common-session.c:410-413 | A keepalive that is due is sealed at once, in the middle of a key exchange too. |
| `Sessions.Session.Encrypt` | reconos/dropbear/packet.c:491-615 | Seal with the current keys and number, or hold back. |
| `Sessions.Session.MaybeFlushReplyQueue` | reconos/dropbear/packet.c:467-487 | The held messages in order, when data is allowed. |
| `Sessions.Session.SendMsgKexinit` | reconos/dropbear/common-kex.c:95-161 | The whole new session state, the guessed packet with it. |
| `Sessions.Session.SwitchKeysNow` | reconos/dropbear/common-kex.c:163-201 | The same for switch_keys, its exit included. |
| `Sessions.Session.SendMsgNewkeys` | reconos/dropbear/common-kex.c:204-222 | The same for send_msg_newkeys. |
| `Sessions.Session.RecvMsgNewkeys` | reconos/dropbear/common-kex.c:225-233 | The same for recv_msg_newkeys. |
| `Sessions.Session.RecvMsgKexinit` | reconos/dropbear/common-kex.c:487-559 | The same for recv_msg_kexinit. |
| `Sessions.Session.RecvMsgKexdhInit` | reconos/dropbear/svr-kex.c:45-67 | The same for the server on KEXDH_INIT. |
| `Sessions.Session.RecvMsgKexdhReply` | reconos/dropbear/cli-kex.c:69-124 | The same for the client on KEXDH_REPLY. |
| `Sessions.Session.SendMsgKexdhInit` | reconos/dropbear/cli-kex.c:44-66 | The same for the client sending KEXDH_INIT, reusing dh_e or not. |
| `Sessions.Session.Process` | reconos/dropbear/process-packet.c:43-128 | The same for process_packet with its gates. |
| `Sessions.Session.CheckTimeoutsNow` | reconos/dropbear/common-session.c:389-420 | The same for rekeying and keepalives. |
| `Sessions.Session.CliLoop` | reconos/dropbear/cli-session.c:186-222 | The same for the client loop handler. |
| `Sessions.Session.LoopOnce` | reconos/dropbear/common-session.c:128-231 | The same for one pass of the loop, and a session that goes on after it is in the invariant of RekeyKeeps if it was before, whatever arrives. |
| `Sessions.Session.constructor` | reconos/dropbear/cli-session.c:93-118 | A session starts in that invariant. |
| `Negotiation.BothChoose` | reconos/dropbear/common-algo.c:294-428 | For any two tables of at most 20 clean names that fit the list buffer, printing on each side and matching on each side gives the same name: the first usable one of the client that the server can use. |
| `Negotiation.GuessAgreesExactly` | reconos/dropbear/common-algo.c:394-423 | With kexguess2 in use the sides agree on a guess if and only if the first entry of the client is usable, or its first usable name is not one of the server. |
| `Negotiation.GuessesDiffer` | reconos/dropbear/common-algo.c:394-423 | An input on which they differ, for all names x and y: a client with x disabled before y and a server with y. |
| `Negotiation.GuessOnClient` | reconos/dropbear/common-algo.c:402-412 | When the client calls a guess good. |
| `Negotiation.GuessOnServer` | reconos/dropbear/common-algo.c:402-412 | When the server does. |
| `Negotiation.KexRefusedAlike` | reconos/dropbear/common-kex.c:713-719 | Both sides give up on the first list alike: exactly when the name chosen is none, or the kexguess2 marker, which is no key exchange. |
| `Negotiation.IgnoredIffResent` | reconos/dropbear/common-kex.c:713-838 | With kexguess2 offered both ways, over the two lists: the server throws the guessed packet away as the client sends another, or both do neither, if and only if the first usable names of the client are not both names of the server, or both first entries of the client are usable; section 7.1 of RFC 4253. |
| `Negotiation.GuessVerdicts` | reconos/dropbear/common-kex.c:713-731 | The verdict of each side over both lists: the server calls the guess good exactly when the first usable names of the client are both its own, the client exactly when both its first entries are usable as well. |
| `Negotiation.LeadChosen` | reconos/dropbear/common-algo.c:394-423 | When the first usable name of the client is one of the server, the client settles on that entry and its value. |
| `Negotiation.RuleOffered` | reconos/dropbear/common-algo.c:359-370 | A side uses kexguess2 exactly when the other offers it. |
| `Negotiation.PrintedThenParsed` | reconos/dropbear/common-algo.c:294-358 | What one side prints the other splits into the same names. |
| `Negotiation.BufPutAlgolist` | reconos/dropbear/common-algo.c:294-312 | The usable names with commas between, refused exactly when the 160-byte list or the buffer is too small. |
| `Negotiation.SplitList` | reconos/dropbear/common-algo.c:334-358 | The names of a received list: too long, zero bytes and the limit of 20 included. |
| `Negotiation.FindPick` | reconos/dropbear/common-algo.c:394-423 | The first match in the order of the two loops. |
| `Negotiation.BufMatchAlgo` | reconos/dropbear/common-algo.c:319-428 | The answer, the guessing rule and whether the guess was good. |
| `Negotiation.PickChooses` | reconos/dropbear/common-algo.c:394-423 | Unusable entries and positions make no difference to the name. |
| `KeyExchange.KeyAgreement` | reconos/dropbear/common-kex.c:616-680 | Client and server build byte-identical exchange-hash input and hold the same K, which is g^(x*y) mod p; section 8 of RFC 4253. |
| `KeyExchange.SecretsAgree` | reconos/dropbear/common-kex.c:633-638 | f^x = e^y = g^(x*y) mod p. |
| `KeyExchange.SecretIs` | reconos/dropbear/common-kex.c:633-638 | The secret computed from the value g^y of the peer is g^(x*y) mod p. |
| `KeyExchange.HashInputBinds` | reconos/dropbear/common-kex.c:502-680 | Two exchange-hash inputs are equal if and only if all eight parts are: who signs the hash signs both version strings, both KEXINITs, the host key, e, f and K. |
| `KeyExchange.KeysCross` | reconos/dropbear/common-kex.c:312-406 | What each side transmits with is what the other receives with: IV, cipher key and MAC key, session id included. |
| `KeyExchange.ExchangeHashInput` | reconos/dropbear/common-kex.c:502-680 | The hash buffer of either side holds the eight parts in order; it fails only on a public value out of range or a buffer too small. |
| `KeyExchange.StartKexHash` | reconos/dropbear/common-kex.c:502-550 | The opening four parts, in the order of the roles. |
| `KeyExchange.KexdhCombKey` | reconos/dropbear/common-kex.c:616-680 | The range check, K as g^(x*y) mod p for whatever y the value of the peer comes from, and the closing four parts. |
| `KeyExchange.HashKeys` | reconos/dropbear/common-kex.c:282-303 | The array holds the first outlen bytes of K1||K2||...; section 7.2 of RFC 4253. |
| `KeyExchange.EnoughBlocks` | reconos/dropbear/common-kex.c:282-303 | That prefix does not depend on how many blocks were computed. |
| `KeyExchange.StreamBlock` | reconos/dropbear/common-kex.c:282-303 | Each block of the key stream is the hash of K, H and all blocks before it, the first of K, H, the letter and the session id. |
| `KeyExchange.GenNewKeys` | reconos/dropbear/common-kex.c:312-406 | The material of both directions by the letters A to F, for either role. |
| `KeyExchange.LettersInUse` | reconos/dropbear/common-kex.c:312-406 | Letter by letter, 65 to 70: which of the IVs, cipher keys and MAC keys is drawn from which, for either role and both directions; section 7.2 of RFC 4253. |
| `KeyExchange.SessionIdStays` | reconos/dropbear/common-kex.c:674-679 | The session id is the first exchange hash and stays it. |
| `Der.KeyRoundTrip` | reconos/dropbear/keyimport.c:585-656 | Parsing the SEQUENCE that is written rebuilds the key blob byte for byte, RSA with n and e swapped and back, or DSS. |
| `Der.RsaFile` | reconos/dropbear/keyimport.c:585-656 | An RSAPrivateKey of PKCS #1, version 0, n, e, d, p, q and three numbers more, reads as the SSH blob with e before n. |
| `Der.DssFile` | reconos/dropbear/keyimport.c:585-656 | The sequence 0, p, q, g, y, x reads as the DSS blob. |
| `Der.DerTags` | reconos/dropbear/keyimport.c:869-920 | The tag bytes 30 and 02, the length, the content. |
| `Der.OpensshWrite` | reconos/dropbear/keyimport.c:693-920 | From the key blob to the bytes written, which read back to the blob. |
| `Der.OpensshRead` | reconos/dropbear/keyimport.c:585-656 | The rebuilt blob, or which error, on every byte string. |
| `Der.WriteSequence` | reconos/dropbear/keyimport.c:869-920 | The sizing pass equals the bytes written, so the length assertion holds, and the bytes are the header and the integers. |
| `Der.HeaderRoundTrip` | reconos/dropbear/keyimport.c:239-342 | Reading a header undoes writing it if and only if the id is at most 30, for all flags and every length that takes fewer than 128 bytes; sections 8.1.2 and 8.1.3 of X.690. |
| `Der.WrappedRoundTrip` | reconos/dropbear/keyimport.c:239-342 | The same with the id read into 32 bits, for ids below 2^28, as far as the shifts of the writer are defined. |
| `Der.LongHeader` | reconos/dropbear/keyimport.c:246-259 | What is read for a longer id of context-specific or private class: the first byte, taken for one group more, in front of the id. |
| `Der.BerWriteIdLen` | reconos/dropbear/keyimport.c:285-342 | The header bytes, one-byte and multi-byte ids and lengths, or only their number without a destination. |
| `Der.BerReadIdLen` | reconos/dropbear/keyimport.c:239-283 | Identifier, length, flags and bytes used, or failure, on every byte string. |
| `Der.CountGroups` | reconos/dropbear/keyimport.c:306-332 | Both counting loops give the number of 7-bit or 8-bit groups. |
| `Der.ReadsBody` | reconos/dropbear/keyimport.c:600-656 | Reading the integers that were written is folding over them. |

## Left out

- DigitInverse.FastMpInvmod: requires that b does not divide a when b is odd, since otherwise the source does not return; the reduction of a modulo b (`mp_mod`, a division) is taken by value.
- Dss.BufDssVerify: excludes a signature whose second half is zero, since the source then does not return (`Dss.VerifyReturns`), and keys with even q, which `mp_invmod` hands to `mp_invmod_slow`.
- Comba.FastMulDigs: excludes a destination with exactly `digs` digits allocated when digs <= a.used + b.used; the source then copies one word past the array.
- Allocation failure (`MP_MEM`, `m_malloc`), and the even-modulus inverse `mp_invmod_slow`.
- `mp_mul`, `mp_sqr`, `mp_exptmod`, `mp_mod` and `mp_mulmod` above the kernels are taken as exact arithmetic.
- SHA-1, HMAC, ciphers and zlib themselves; compression is off in `Framing`.
- `gen_random_mpint`: nonces, blinding values and Diffie-Hellman exponents are inputs.
- Buffers.Buffer.GetBytes: takes lengths up to 10^9, because the source's 32-bit `pos + len` could wrap beyond that.
- The size limit of `buf_new` and `cbuf_new` is a precondition of the constructors.
- Sockets, `select`, file descriptors as resources (`FD_UNINIT`, `close`, `shutdown` effects), timers, listeners, X11, agent and TCP forwarding.
- Channel opening (`initconn`, `await_open`, open confirmations): `ChannelPair.Opened` starts from a confirmed channel; requests and replies on a channel, and `read_mangler`, change nothing modelled and are left out.
- A channel number reused for a second channel: `ChannelPair` follows one channel from opening to removal.
- Type-specific close handlers are counted, what they send is not modelled.
- Channels.Channel.WriteChannel: requires that `write` takes no more than it was offered.
- Packets.Receiver.ReadPacketNow: requires that `read` returns no more than it was asked for; an interrupted read is one that returns nothing.
- The single-buffer branch of `write_packet` for systems without `writev`, and the traffic counters and times kept beside it.
- Liveness of rekeying: a packet in flight can meet `requirenext` and end the session (`RekeyRun.GuessedRekeyEnds`), so `RekeyPair` and `RekeyAnswers` prove safety up to that point.
- `set_algo_usable` with the rekey it triggers after authentication in builds with the none cipher.
- The linked queue of `Queue` is proved on its own; `Packet` keeps its write queue as a sequence.
- The values d mod (p-1), d mod (q-1) and the inverse of q written into an RSA key are inputs, as the reader ignores them.
- Der.BerWriteIdLen: shifts as wide as an int, for ids from 2^28 and lengths from 2^24, are undefined in C and divisions here; lengths that overflow an int in the source's reader are exact here.
- Base64, the PEM header lines, encrypted keys and the disabled ssh.com format.
- `list.c`, `compat.c`, the host-side Python and VHDL generators: only easy members or nothing unbounded to prove.
