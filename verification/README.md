# OTPasswd: verified model

OTPasswd is a one-time-password manager and PAM module written in C. This project models its hard core in
Dafny and proves what the core is for:

- **Passcodes.** A hand-written 128-bit arithmetic (`Num.dfy`, `NumText.dfy`) feeds a counter with an optional
  96-bit salt, a block cipher, repeated division by the size of an alphabet (`Alphabet.dfy`, `Ppp.dfy`) and the
  card, row and column geometry (`Cards.dfy`). `EndToEnd.dfy` joins them: in every run, the cell named for a
  reserved counter on a card printed before holds the passcode that authentication accepts; and no counter is
  accepted twice, however many logins run at the same time.
- **Reservation.** `Reservation.dfy` is a state machine over the interleaved steps of any number of sessions that
  lock, load, check, store and unlock one record, with every file operation free to fail. `Agent.dfy` is the agent
  over its requests, `Pam.dfy` the login loop.
- **State database.** `Hex.dfy`, `DbEntry.dfy` and `DbStore.dfy`: an entry and its printed line, the parser that
  undoes the printer, and the rewrite of the file.
- **Primitives.** `Gf256.dfy` and `Aes.dfy` define AES with 256-bit keys as FIPS 197 does; `SlowAes.dfy` (bytes, in
  place, round keys on the fly) and `PolarAes.dfy` (generated tables, 32-bit words, equivalent inverse cipher)
  are proved against them and are interchangeable in `Crypto.dfy`. `Sha256Spec.dfy` defines SHA-256 as FIPS 180-2
  does, `Sha256Constants.dfy` derives its constants from the primes, `Sha256Example.dfy` computes the first example of
  the standard, and `Sha256.dfy` is the buffered implementation with its circular schedule.

`Machine.dfy` holds the sizes of machine words, powers, quotients and remainders for all of them; `Sequences.dfy`,
`Wrappers.dfy` and `ErrorCodes.dfy` hold what else is shared.

Code that updates objects, buffers or loop variables is modelled by classes, arrays and loops, each proved
against a function that specifies it. Machine arithmetic is explicit: bytes and 32-bit words are bit-vectors in
the primitives, 64-bit words are integers with their remainders written out in the arithmetic.

Where code and documentation differ, the model follows the code:

- The alphabet that a comment in `src/libotp/ppp.c:51` gives 78 characters has 77 (`Alphabet.BuiltinLengths`).
- `src/common/num.c:366-369` imports the PPP hexadecimal form without reversing the bytes
  (`NumText.PppHexRoundTrip` says for which numbers that does no harm, `NumText.PppHexOfOne` gives one where it does).
- `src/common/num.c:169-196` does not refuse the divisor zero: the quotient is all ones and the remainder the low
  word (`Num.DivI`).
- `src/libotp/db_file.c:919-922` lets a store with a duplicate entry end in success, and drops the lines that follow
  (`DbStore.OthersKept` says exactly when a line is lost, `DbStore.DuplicateLosesLine` gives a file). On that path
  the result of the flush is ignored too, so that the file may be cut off (`DbStore.Database.Store`).
- `src/agent/request.c:888` has a condition that is always true: the record is stored whenever it was loaded under
  the lock, also after a refused static password, where every other setter stores it exactly when it succeeded
  (`Agent.Agent.ExecuteSet`; `Agent.SpassRefusedWhen` says exactly when the password is refused, and
  `Agent.RefusedSpassStored` is a refusal that is followed by a store).
- Requests can fail assertions: a field that a getter or setter does not know, a getter that needs a calculation
  before there was one, and a reservation on a new key that has not been stored (`Agent.Agent.Execute` says exactly
  when; `Agent.NewThenWarnings` is a new state whose warnings are asked for). `Agent.Serve` gives requests that never
  do.
- The count of `src/crypto/coreutils_sha256.c:339-344` carries once, and so is wrong for pieces of 2^33 bytes and more
  that lie in place (`Sha256.Sha256Ctx.ProcessBytes` says exactly when, `Sha256.LongPieceMiscounted` gives such
  pieces).
- The guard of `src/utility/actions_helpers.c:574` stops at column J, although cards of two-character passcodes have a
  column K (`Cards.SpecColumns`).
- A salted key whose counter lies above the largest one that `src/libotp/ppp.c:195` admits is refused from the
  beginning (`Ppp.FreshKeyInRange` says exactly when, `Ppp.HighSaltRefused` gives such a key).
- `src/libotp/ppp.c:917-918` overwrites the counter before the salt is taken from it, so that skipping leaves no salt,
  and admits targets before the counter (`Ppp.State.Skip`; `Ppp.SkipKeepsCards` says exactly when the passcodes of
  printed cards stay as they were).
- `src/libotp/state.c:101-105` assigns the flags only if passcodes are shown by default; otherwise they depend on
  what the memory held (`Ppp.FlagsInitialised`).
- `src/libotp/db_file.c:777` recognises only the one line length that equals the buffer as too long: a longer line is
  accepted and cut (`DbEntry.CutLine`, `DbEntry.LongNameCut`, `DbEntry.ShortestCut`); no state that the setters admit comes near it
  (`DbEntry.LineLength`).

## Model

| member | source | states |
|---|---|---|
| Gf256.PowerReaches | src/crypto/slow_aes256.c:103-129 | every non-zero byte is a power of the generator 3, below the 255th, so logarithms exist |
| Gf256.PowerInjective | src/crypto/polarssl_aes.c:370-375 | fewer than 255 steps apart, equal powers have equal exponents, so only the logarithm of 1 is written twice, and ends as 255 |
| Gf256.InverseByPower | src/crypto/slow_aes256.c:127-130 | the power 255 - k is the inverse of the power k |
| Gf256.InverseUnique | src/crypto/slow_aes256.c:127-130 | a byte that multiplies to one is the inverse, whichever way it was found |
| Gf256.MulAssociates | src/crypto/polarssl_aes.c:357 | the product defined by doubling is associative, which the product through logarithms needs |
| Aes.SBoxInverse | src/crypto/slow_aes256.c:133-155 | the two S-boxes undo each other on every byte |
| Aes.MixColumnInverse | src/crypto/slow_aes256.c:222-250 | the inverse column matrix undoes the column matrix |
| Aes.InvMixColumnXor | src/crypto/polarssl_aes.c:580-589 | inverse mixing distributes over adding a round key, why decryption keys may be mixed beforehand |
| Aes.CipherInverse | src/crypto/slow_aes256.c:318-359 | deciphering undoes enciphering for every 256-bit key and block |
| Aes.EqInvCipherIsInvCipher | src/crypto/polarssl_aes.c:547-601 | the equivalent inverse cipher of section 5.3.5 of FIPS 197 is the inverse cipher |
| SlowAes.GfAlog | src/crypto/slow_aes256.c:103-110 | the loop computes a power of the generator |
| SlowAes.GfLog | src/crypto/slow_aes256.c:113-124 | the search finds the exponent, and ends by wrapping to zero for the byte zero |
| SlowAes.GfMulInv | src/crypto/slow_aes256.c:127-130 | the inverse, with zero for zero |
| SlowAes.RjSbox | src/crypto/slow_aes256.c:133-142 | the rotated sums are the S-box of FIPS 197 |
| SlowAes.RjSboxInv | src/crypto/slow_aes256.c:145-155 | the inverse S-box |
| SlowAes.RjXtime | src/crypto/slow_aes256.c:159-162 | doubling in the field |
| SlowAes.AesSubBytes | src/crypto/slow_aes256.c:165-170 | in place SubBytes |
| SlowAes.AesSubBytesInv | src/crypto/slow_aes256.c:173-178 | in place InvSubBytes |
| SlowAes.AesAddRoundKey | src/crypto/slow_aes256.c:181-186 | in place AddRoundKey |
| SlowAes.AesAddRoundKeyCpy | src/crypto/slow_aes256.c:189-195 | adds the first round key and copies the whole key |
| SlowAes.AesShiftRows | src/crypto/slow_aes256.c:198-207 | in place ShiftRows |
| SlowAes.AesShiftRowsInv | src/crypto/slow_aes256.c:210-219 | in place InvShiftRows |
| SlowAes.AesMixColumns | src/crypto/slow_aes256.c:222-233 | the shared sums of each column are MixColumns |
| SlowAes.AesMixColumnsInv | src/crypto/slow_aes256.c:236-249 | the shared sums of each column are InvMixColumns |
| SlowAes.NextKeyWindow | src/crypto/slow_aes256.c:252-272 | eight words of the key schedule follow from the eight before |
| SlowAes.NextWindowInjective | src/crypto/slow_aes256.c:275-295 | a window of the schedule has one predecessor, so it can be run backwards |
| SlowAes.AesExpandEncKey | src/crypto/slow_aes256.c:252-272 | in place, the next eight words and the next round constant |
| SlowAes.AesExpandDecKey | src/crypto/slow_aes256.c:275-295 | in place, the window from which the forward expansion would give the present one |
| SlowAes.HalfTimeInverse | src/crypto/slow_aes256.c:290 | the round constant is halved exactly |
| SlowAes.Aes256Context.Init | src/crypto/slow_aes256.c:299-306 | the decryption key is the last window of the schedule of the encryption key |
| SlowAes.EncryptRound | src/crypto/slow_aes256.c:324-331 | one turn is a round of the cipher with the round key of that turn |
| SlowAes.DecryptRound | src/crypto/slow_aes256.c:346-356 | one turn sees the round key that encryption used and undoes that round |
| SlowAes.Aes256EncryptEcb | src/crypto/slow_aes256.c:318-335 | the buffer becomes the cipher of FIPS 197 of it |
| SlowAes.Aes256DecryptEcb | src/crypto/slow_aes256.c:338-359 | the buffer becomes the inverse cipher of it |
| SlowAes.CryptoAesEncrypt | src/common/crypto.c:162-175 | encrypts 16 bytes with 32 bytes of key |
| SlowAes.CryptoAesDecrypt | src/common/crypto.c:177-190 | decrypts them |
| PolarAes.FillPowers | src/crypto/polarssl_aes.c:370-375 | the power and logarithm tables hold powers and their logarithms |
| PolarAes.FillRcon | src/crypto/polarssl_aes.c:380-384 | the round constants |
| PolarAes.FillSBoxes | src/crypto/polarssl_aes.c:389-405 | both S-boxes of FIPS 197, the inverse filled through the images |
| PolarAes.MulByLog | src/crypto/polarssl_aes.c:357 | the product through the tables is the field product, zero included |
| PolarAes.FillForward | src/crypto/polarssl_aes.c:410-424 | four tables of columns of the mixing matrix times S-box images |
| PolarAes.FillReverse | src/crypto/polarssl_aes.c:425-434 | four tables of columns of the inverse matrix times inverse S-box images |
| PolarAes.GenTables | src/crypto/polarssl_aes.c:361-436 | all eleven tables are as the rounds need them |
| PolarAes.AesFRound | src/crypto/polarssl_aes.c:601-622 | a table round is SubBytes, ShiftRows, MixColumns and AddRoundKey |
| PolarAes.AesRRound | src/crypto/polarssl_aes.c:624-645 | a reverse table round is InvShiftRows, InvSubBytes, InvMixColumns and AddRoundKey |
| PolarAes.LastEncryptRound | src/crypto/polarssl_aes.c:718-740 | the last round of the cipher |
| PolarAes.LastDecryptRound | src/crypto/polarssl_aes.c:683-705 | the last round of the inverse cipher |
| PolarAes.ExpandEight | src/crypto/polarssl_aes.c:511-533 | one turn appends the next eight words of the key schedule |
| PolarAes.AesSetkeyEnc | src/crypto/polarssl_aes.c:442-542 | sixty words of the schedule of FIPS 197 for a 256-bit key |
| PolarAes.InvMixWord | src/crypto/polarssl_aes.c:584-587 | the reverse tables entered through the S-box are InvMixColumn |
| PolarAes.AesSetkeyDec | src/crypto/polarssl_aes.c:547-599 | the round keys of the equivalent inverse cipher, in reverse order |
| PolarAes.CryptEcbEncrypt | src/crypto/polarssl_aes.c:650-746 | encrypt mode is the cipher of FIPS 197 |
| PolarAes.CryptEcbDecrypt | src/crypto/polarssl_aes.c:650-746 | decrypt mode is the inverse cipher |
| PolarAes.CryptoAesEncrypt | src/common/crypto.c:198-211 | encrypts 16 bytes with 32 bytes of key |
| PolarAes.CryptoAesDecrypt | src/common/crypto.c:213-223 | decrypts them |
| Crypto.AesEncrypt | src/common/crypto.c:158-225 | the ciphertext does not depend on the implementation |
| Crypto.AesDecrypt | src/common/crypto.c:158-225 | nor does the plaintext |
| Crypto.RoundTrip | src/common/crypto.c:158-225 | both implementations encrypt to the same bytes, and either decrypts what the other encrypted |
| Sha256.F1IsCh | src/crypto/coreutils_sha256.c:316-317 | the short forms of the choice and majority functions are those of FIPS 180-2 |
| Sha256.MacrosAreSigmas | src/crypto/coreutils_sha256.c:346-350 | the left rotations of the macros are the four sigma functions |
| Sha256.R | src/crypto/coreutils_sha256.c:357-364 | changing two of eight variables is a round that shifts all eight |
| Sha256.NextWord | src/crypto/coreutils_sha256.c:352-355 | the circular buffer of sixteen words gives every word of the 64-word schedule |
| Sha256.AllSteps | src/crypto/coreutils_sha256.c:378-441 | the 64 lines with rotated names are the 64 rounds |
| Sha256.Sha256Ctx.ProcessBlock | src/crypto/coreutils_sha256.c:323-450 | for every size_t, the state becomes the fold of the compression function over the blocks; the bytes are counted right exactly below 2^32, or where the lower word does not pass 2^33 |
| Sha256.Sha256Ctx.Count | src/crypto/coreutils_sha256.c:339-344 | the count modulo 2^64, with the error of its one carry, and exactly when there is none |
| Sha256.Sha256Ctx.constructor | src/crypto/coreutils_sha256.c:59-73 | a new context stands for the empty message |
| Sha256.Sha256Ctx.ProcessBytes | src/crypto/coreutils_sha256.c:225-290 | for every size_t, a context that stood for a message stands for it extended, whichever alignment branch is taken; its count stays right exactly under a condition on length and alignment, which holds below 2^32 |
| Sha256.Sha256Ctx.ConcludeCtx | src/crypto/coreutils_sha256.c:100-124 | the state becomes the fold over the message, padded with the length that was counted |
| Sha256.Sha256Ctx.ReadCtx | src/crypto/coreutils_sha256.c:86-96 | the digest is the state, most significant bytes first |
| Sha256.Sha256Ctx.FinishCtx | src/crypto/coreutils_sha256.c:126-131 | the digest of the message that the context stands for, SHA-256 if it was counted right |
| Sha256.Sha256Buffer | src/crypto/coreutils_sha256.c:210-223 | for every size_t, the digest of the buffer with the length that was counted, which is its own exactly under that condition |
| Sha256.LongPieceMiscounted | src/crypto/coreutils_sha256.c:339-344 | aligned pieces of 2^33 bytes and more are counted wrong |
| Sha256.CryptoSha256 | src/common/crypto.c:149-155 | SHA-256 of the first bytes of the data, for every unsigned int |
| Sha256.DigestOfPieces | src/crypto/coreutils_sha256.c:225-290 | however a message is cut into pieces, and wherever they lie, the digest is that of the whole, padded with the length that was counted: the right one for pieces below 2^32 bytes, or messages below 2^33 |
| Sha256Constants.RoundConstants | src/crypto/coreutils_sha256.c:296-313 | the constant of round t is the first 32 bits behind the point of the cube root of the t-th prime |
| Sha256Constants.InitialValue | src/crypto/coreutils_sha256.c:59-73 | the initial hash value comes in the same way from the square roots of the first eight primes |
| Sha256Constants.EnoughPrimes | src/crypto/coreutils_sha256.c:296-313 | there is a t-th prime for each of the 64 rounds |
| Sha256Example.DigestOfAbc | src/common/crypto.c:149-155 | through all 64 rounds, the digest of the bytes abc is that of appendix B.1 of FIPS 180-2 |
| Num.LShift | src/common/num.c:53-61 | doubles modulo 2^128 |
| Num.RShift | src/common/num.c:63-71 | halves |
| Num.Cmp | src/common/num.c:92-105 | compares the values |
| Num.CmpI | src/common/num.c:82-90 | compares with a word |
| Num.MaskCode | src/common/num.c:73-80 | the code mask takes the remainder modulo 2^32 |
| Num.MaskSalt | src/common/num.c:73-80 | the salt mask takes that remainder away |
| Num.Arithmetic.Add | src/common/num.c:107-124 | the sum modulo 2^128, flagged exactly on overflow |
| Num.Arithmetic.Sub | src/common/num.c:126-145 | the difference modulo 2^128, flagged exactly on borrow |
| Num.Arithmetic.MulI | src/common/num.c:147-167 | the product modulo 2^128, flagged exactly when the true product needs more |
| Num.DivI | src/common/num.c:169-196 | the exact quotient and remainder for every non-zero 64-bit divisor; for zero all ones and the low word |
| Num.DivStep | src/common/num.c:177-194 | one turn of the division keeps the shifted dividend, with the remainder in 65 bits |
| NumText.NumGetStr | src/common/num.c:204-236 | prints the shortest numeral |
| NumText.NumSetStrDec | src/common/num.c:249-276 | accepts exactly 1 to 39 decimal digits below 2^128, and gives their value |
| NumText.NumSetStrHex | src/common/num.c:277-301 | accepts exactly 1 to 32 hexadecimal digits, and gives their value |
| NumText.DecimalRoundTrip | src/common/num.c:303-382 | every number printed in decimal is accepted by the import and denotes itself |
| NumText.ExportHex | src/common/num.c:324-335 | plain hexadecimal, most significant byte first |
| NumText.ExportPppHex | src/common/num.c:312-322 | the other order of bytes |
| NumText.HexRoundTrip | src/common/num.c:324-335 | every number printed in plain hexadecimal is accepted by the import and denotes itself |
| NumText.BinRoundTrip | src/common/num.c:336-341 | binary export and import undo each other |
| NumText.ExportBinAt | src/common/num.c:336-341 | byte i of the binary form is that of weight 256^i |
| NumText.PppHexRoundTrip | src/common/num.c:366-369 | the PPP form comes back unchanged exactly when the sixteen bytes read the same both ways |
| NumText.PppHexOfOne | src/common/num.c:366-369 | it does not for the number one |
| Hex.BinaryToHex | src/common/crypto.c:342-361 | two upper-case digits for each byte |
| Hex.HexToBinary | src/common/crypto.c:363-405 | succeeds exactly on enough hexadecimal digits, and gives their bytes |
| Hex.UnhexHexOf | src/common/crypto.c:342-405 | the digits of bytes are read back as the bytes |
| Hex.DigitsInOrder | src/common/crypto.c:342-405 | which characters are digits, and what each is worth |
| Alphabet.BuiltinDistinct | src/libotp/ppp.c:40-67 | no character occurs twice in an alphabet of the table |
| Alphabet.BuiltinLengths | src/libotp/ppp.c:38-58 | the sizes of the alphabets, one of which its comment gives wrongly |
| Alphabet.BuiltinMembers | src/libotp/ppp.c:38-66 | for each number of the table, exactly which characters the alphabet holds, as ranges and exceptions, in ascending order |
| Alphabet.AlphabetCheck | src/libotp/config.c:36-72 | a custom alphabet is accepted exactly when its characters print and are distinct |
| Alphabet.DecodeDigits | src/libotp/ppp.c:374-384 | the digits of a number denote it modulo the alphabet's size to the length |
| Alphabet.SameDigits | src/libotp/ppp.c:374-384 | two numbers have the same digits exactly when they agree modulo that power |
| Alphabet.DigitAt | src/libotp/ppp.c:374-384 | character i of a passcode is the digit of weight A^i |
| Ppp.PlaceRoundTrip | src/libotp/ppp.c:454-472 | the place of a passcode number is on its card, and stands for that number |
| Ppp.NumberRoundTrip | src/libotp/ppp.c:454-472 | every place on a card is the place of the number it stands for |
| Ppp.PlacesInOrder | src/libotp/ppp.c:454-472 | passcodes run along the rows, from column A of row 1 of card 1 on |
| Ppp.CodesPerRow | src/libotp/ppp_common.h:38-62 | a row takes as many passcodes, each with a space, as fit into 35 characters |
| Ppp.FlagLaws | src/libotp/ppp.c:1351-1366 | setting and clearing a flag changes that flag and no other |
| Ppp.PolicyPermits | src/libotp/ppp.c:132-265 | the checks of flags, alphabet and code length accept exactly what the configuration permits |
| Ppp.MaxCodeLeavesRoom | src/libotp/ppp.c:474-502 | behind the last passcode a whole card of numbers is left over |
| Ppp.IncrementInRange | src/libotp/ppp.c:863-876 | adding one to a counter in range takes the next number, leaves the salt and does not overflow |
| Ppp.MaskStrings | src/libotp/state.c:64-68 | the two strings denote the masks |
| Ppp.FreshKeyInRange | src/libotp/ppp.c:183-223 | a new key is in range exactly when its salt does not lie above the largest counter |
| Ppp.HighSaltRefused | src/libotp/ppp.c:183-223 | a digest of ones gives a new key that is out of range for every code length |
| Ppp.FlagsInitialised | src/libotp/state.c:101-105 | new flags are independent of what the memory held exactly if passcodes are shown by default |
| Ppp.AcceptedAlphabet | src/libotp/ppp.c:147-181 | an alphabet that policy accepts has distinct characters and some |
| Ppp.PasscodeDecodes | src/libotp/ppp.c:330-396 | a passcode denotes the encrypted counter modulo A^L, and is shared exactly when encryptions agree modulo A^L |
| Ppp.State.constructor | src/libotp/state.c:100-134 | a new state has the masks of the strings, a zero counter, the default length and alphabet, and flags that may come from the memory |
| Ppp.State.Calculate | src/libotp/ppp.c:443-502 | card, row, column and limits are those of the counter |
| Ppp.State.GenerateKey | src/libotp/state.c:161-218 | the key is the digest of the random pool, or of its first half when the second becomes the salt; passcode number zero comes first; nothing changes when the random source fails |
| Ppp.State.VerifyRange | src/libotp/ppp.c:183-223 | zero exactly when the counter is in range, with the two errors told apart |
| Ppp.State.Verify | src/libotp/ppp.c:250-265 | zero exactly when flags, alphabet, length and range are accepted |
| Ppp.State.AddSalt | src/libotp/ppp.c:316-328 | the number behind the salt of the counter |
| Ppp.State.GetPasscode | src/libotp/ppp.c:330-396 | the buffer holds the passcode of the salted number, or is untouched when the alphabet is refused |
| Ppp.State.Skip | src/libotp/ppp.c:887-929 | accepted exactly for a verified, enabled state and a target below the last passcode; the target becomes the passcode number, and the salt is gone |
| Ppp.SkipKeepsCards | src/libotp/ppp.c:917-918 | after a skip every passcode number keeps its counter exactly if there was no salt |
| Ppp.State.Authenticate | src/libotp/ppp.c:409-438 | accepts exactly the passcode of the counter of an enabled, verified state |
| Cards.CellHolds | src/utility/cards.c:157-188 | in the text of a card, the cell of a row and column holds the passcode with that row and column |
| Cards.LabelsHold | src/utility/cards.c:143-164 | in the text of a card, the line of each row begins with its number in two places and a colon, and the letter of each column stands above its passcodes |
| Cards.LinesEnd | src/utility/cards.c:143-188 | a space stands behind each passcode but the last of a row, where the line ends |
| Cards.HeaderHolds | src/utility/cards.c:137-143 | the first line is the title, spaces, and the number in brackets at the right |
| Cards.Title | src/utility/cards.c:89-126 | the label, or the host name, as a whole or with three points at its end, so that eight characters remain |
| Cards.ShownNumber | src/utility/cards.c:128-134 | the number as a whole where it fits, otherwise an asterisk and its last digits, filling the line |
| Cards.AgentGetPasscode | src/agent/agent_interface.c:755-773 | the passcode reaches the caller, or an empty string when the alphabet is refused |
| Cards.WriteColumns | src/utility/cards.c:143-155 | the letters stand above their columns |
| Cards.WriteRow | src/utility/cards.c:161-188 | one row is written with its label and passcodes, and the number moves on |
| Cards.CardAscii | src/utility/cards.c:32-206 | the whole text of the card, character by character, or nothing when printing is refused |
| Cards.PromptCell | src/libotp/ppp.c:1190-1240 | on a card printed at any time with the same key, the line that begins with the row of the prompt holds, below the letter of its column, the expected passcode |
| Cards.GetPasscodeNumber | src/utility/actions_helpers.c:615-659 | succeeds exactly for a row and column of a card, and gives the number of the place modulo 2^128, for card zero too |
| Cards.PromptNumber | src/utility/actions_helpers.c:634-651 | the place that the prompt names is read back as the number of the counter |
| Cards.SpecColumns | src/utility/actions_helpers.c:573-577 | the parser admits every column of a card exactly if it has at most ten; K of two-character passcodes is refused |
| EndToEnd.ReservedCell | src/libotp/ppp.c:840-884 | for every counter reserved in any run, a card printed at its beginning shows the accepted passcode in the line labelled with the row of the prompt, below the letter of its column |
| EndToEnd.AcceptedOnce | src/pam/pam_otpasswd.c:102-228 | in any run, no counter is checked in two logins, of one session or two, and none is accepted twice |
| Reservation.StoreIsFresh | src/libotp/state.c:286-346 | a store writes what the operation makes of the record as it is stored, or nothing |
| Reservation.RunKeeps | src/libotp/ppp.c:686-782 | the invariants hold in every interleaving |
| Reservation.ReservedOnce | src/libotp/ppp.c:840-884 | reserved counters ascend, lie below the stored one and keep the salt; counts are conserved |
| Reservation.ReservedApart | src/libotp/ppp.c:840-884 | a counter that was reserved belongs to one session |
| Reservation.NoStaleStore | src/libotp/ppp.c:931-998 | in every run each store changes its own field under the lock; a copy loaded without it is never written |
| Reservation.IncrementAchieves | src/libotp/ppp.c:840-884 | an increment without others in between, whatever its file operations do: it stores the next counter, and reserves the old one if the lock is let go, exactly when range, policy, the disabled flag and the file operations allow; otherwise the record stays, and the code is that of the first failing check |
| Reservation.FailuresAchieves | src/libotp/ppp.c:931-964 | the same for counting a failure and for clearing the recent ones |
| Reservation.OobTimeAchieves | src/libotp/ppp.c:968-999 | the same for the time of the last message |
| Reservation.SetLengthAchieves | src/agent/request.c:847-861 | the same for the code length; an exhausted record is refused only where it would be stored |
| Reservation.UnlockedAchievesNothing | src/libotp/state.c:286-346 | a record loaded without the lock is never written, and its store ends with code 2 |
| Reservation.FailedStore | src/libotp/state.c:286-346 | a store whose file operation fails writes nothing, and its call does not return zero |
| Reservation.LockHeld | src/libotp/ppp.c:686-782 | while a session holds the lock no other gets it, and it is let go when unlocking reports no failure |
| Reservation.OnlyStoresWrite | src/libotp/ppp.c:726-782 | in every world, only a store that succeeds under the lock writes, and only a return reserves |
| Reservation.ZeroMeansStored | src/libotp/ppp.c:726-782 | in every interleaving, a call returns zero only after its own store, and an increment then reserves the counter it had loaded |
| Reservation.RunRecords | src/libotp/ppp.c:931-998 | in every run, the recent failures are those stored since they were last cleared, and the time of the last message and the code length are those of the last store of their operation |
| DbEntry.SplitJoin | src/libotp/db_file.c:44-62 | joined fields come apart as they were |
| DbEntry.ValidateStr | src/libotp/state.c:36-56 | accepts exactly strings of allowed characters |
| DbEntry.GenerateUserEntry | src/libotp/db_file.c:731-786 | the buffer holds the line, and the result tells the two lengths that are refused |
| DbEntry.LowerHexDenotes | src/libotp/db_file.c:758-778 | the hexadecimal form of the flags has small digits and denotes them |
| DbEntry.LineLength | src/libotp/db_file.c:758-778 | the line of an admitted state fits the buffer and ends with a line end |
| DbEntry.CutLine | src/libotp/db_file.c:776-784 | a line reaches the file whole exactly if it is shorter than the buffer |
| DbEntry.LongNameCut | src/libotp/db_file.c:776-784 | a name of 362 characters or more gives a line that is cut |
| DbEntry.ShortestCut | src/libotp/db_file.c:776-784 | with the shortest other fields, no shorter name does |
| DbEntry.ParseUserEntry | src/libotp/db_file.c:449-491 | the tokens of a line, exactly when there are fifteen short ones and the version fits |
| DbEntry.ParseKey | src/libotp/db_file.c:584-596 | thirty-two bytes from pairs of characters |
| DbEntry.LoadEntry | src/libotp/db_file.c:573-708 | accepts exactly the lines that the parsing function accepts, with its entry |
| DbEntry.EntryRoundTrip | src/libotp/db_file.c:731-786 | an admitted state is recovered from its printed line |
| DbStore.FindUserEntry | src/libotp/db_file.c:384-447 | finds the first line of the user, copying the lines before, or copies all |
| DbStore.Database.Store | src/libotp/db_file.c:788-987 | success leaves the rewritten file, cut off at worst if the user had two lines and the last flush failed; any error leaves the file as it was; it fails only when a file operation does, the file is malformed or the line does not fit; with one line for each user, the line of the entry stands where the old one stood, or last, or is gone after a removal, and every other line is where it was |
| DbStore.OthersKept | src/libotp/db_file.c:915-932 | lines of other users are all kept, in order, exactly when none stands behind a second line of the user |
| DbStore.DuplicateLosesLine | src/libotp/db_file.c:919-922 | a file where one is lost |
| DbStore.StoreKeepsOthers | src/libotp/db_file.c:884-940 | with one line for each user, other lines are kept in order and user names stay unique |
| DbStore.UniqueRewrite | src/libotp/db_file.c:884-940 | then the new line takes the place of the old one, or comes last |
| DbStore.StoreThenLoad | src/libotp/db_file.c:496-708 | a stored entry is found again and read back |
| DbStore.Database.Load | src/libotp/db_file.c:496-708 | gives the entry that the first line of the user stands for, and succeeds exactly if there is one that parses, when the file operations do |
| DbStore.StoreAndLoad | src/libotp/db_file.c:496-987 | after a store that succeeded, loading gives back the entry that was stored |
| DbStore.OwnsPrefix | src/libotp/db_file.c:384-447 | a line belongs to a user exactly if it begins with the name and a colon |
| Pam.SmAuthenticate | src/pam/pam_otpasswd.c:36-232 | every answer taken that asks for no message is checked, in order, answer i against the counter of its turn, whatever messages are asked for in between; a required static password comes before everything, and a secured message after one; checks and wrong static passwords together are limited as the options say; each refused check is counted; success exactly on the first acceptance; a login in which all goes well fails only when answers, tries or counters are used up |
| Pam.AcceptedLast | src/pam/pam_otpasswd.c:198-212 | an accepted answer is the last one, and the passcode of its counter |
| Pam.SuccessIsRight | src/pam/pam_otpasswd.c:198-212 | a login that succeeds does so on an answer that is the passcode of the counter of its turn, and no answer before it was |
| Pam.RightSucceeds | src/pam/pam_otpasswd.c:102-228 | when all goes well, the first right answer within the tries lets the user in, also after messages were asked for |
| Agent.State.Load | src/libotp/ppp.c:686-724 | the lock is held afterwards exactly when it was asked for and everything succeeded; a record that was read has been calculated, also an exhausted one |
| Agent.State.Store | src/libotp/state.c:286-346 | refused without the lock unless a new key is stored; the database is asked in the other cases only |
| Agent.State.Release | src/libotp/ppp.c:726-782 | unlocks when asked; the error of the store goes before that of the unlock |
| Agent.Agent.StateInit | src/agent/request.c:46-82 | entered only without a state; new_state goes with a state that was not loaded; the lock is kept exactly if it was asked for and the counter is in range |
| Agent.Agent.StateFini | src/agent/request.c:85-128 | the state is dropped, or kept without the lock |
| Agent.Agent.StateInitAtomical | src/agent/request.c:135-162 | a new state is left alone, any other loaded afresh and calculated |
| Agent.Agent.StateFiniAtomical | src/agent/request.c:167-192 | no lock is held afterwards; without the lock nothing is stored |
| Agent.Agent.VerifyPolicy | src/agent/request.c:194-395 | permits exactly what the configuration grants to the user or to root, with the code of the refusal, and leaves state and lock as they were |
| Agent.Agent.ExecuteSet | src/agent/request.c:837-895 | a setter ends without the lock; the record is stored exactly if it was loaded under the lock and the setter succeeded, or sets the static password, refused or not; a new state is not stored; an unknown field fails an assertion once the state is there |
| Agent.Agent.ExecuteRemove | src/agent/request.c:520-542 | the database is asked to remove the record exactly if it was loaded and its counter is in range, and for nothing else |
| Agent.State.GenerateKey | src/libotp/ppp.c:793-836 | a new key waits to be stored exactly if there was one or the generation succeeded |
| Agent.NewKeyStored | src/agent/request.c:453-518 | a state made, given a key and stored, all with status zero, is written exactly once |
| Agent.SpassRefusedWhen | src/libotp/ppp.c:1427-1458 | exactly when the static password stays as it was, and what the answer tells |
| Agent.RefusedSpassStored | src/agent/request.c:883-897 | a static password that policy refuses is followed by a store |
| Agent.Agent.Execute | src/agent/request.c:397-906 | an assertion fails exactly for an unknown field, a getter before the calculation it needs, or a reservation on an unstored new key that was loaded and checked; otherwise one reply, no lock, and the state, the number of stores and the status that the request calls for |
| Agent.Agent.Handle | src/agent/request.c:912-942 | the same for permitted requests; what policy does not permit gets a reply and has no effect; a permitted request may end the agent only if it disconnects, makes a state, or loads one where there is one |
| Agent.NewThenWarnings | src/libotp/ppp.c:508-518 | a new state whose warnings are asked for fails an assertion |
| Agent.Serve | src/agent/agent.c:316-352 | over any requests no lock is held between them, and each has exactly one reply while the agent goes on; which requests may end it, and which may fail an assertion; none does where no state and no key is made anew and all fields are known |

## Left out

- PolarAes.AesSetkeyEnc: 128-bit and 192-bit keys, which `src/common/crypto.c` never uses.
- PolarAes.AesSetkeyDec: the same.
- The VIA padlock branch and the CBC and CFB modes of the table-driven AES, which `src/common/crypto.c` never uses either.
- The flag that generates the AES tables once, and `aes256_done`, which clears memory.
- The lookup tables of `src/crypto/slow_aes256.c:26-99`, which are compiled only under a macro that is off, and OpenSSL.
- Machine words: `unsigned long` in the table-driven AES is 32 bits wide here, because its upper bits stay zero; byte order is little-endian.
- `sha256_stream`, which reads files, and salted hashes, which add a prefix.
- Ppp.State.GetPasscode: the block cipher is any function that keeps the length of a block; an error of the cipher is not modelled, because both implementations in `src/common/crypto.c:158-225` always return zero.
- `ppp_skip` in the runs, key generation, removal and a change of the salt flag: each begins a new run.
- `ppp_get_prompt` for another counter than the current one, warnings, messages, getters and most setters.
- The parser of passcode specifications in `src/utility/actions_helpers.c:424-607`, apart from the columns it admits.
- Ppp.State.constructor: the fields that have nothing to do with passcodes, such as failure counts, times and labels.
- Cards as LaTeX.
- Reservation.ReservedOnce: the state lock is taken to be a mutex; the lock file is removed before the lock is released (`src/libotp/db_file.c:1101-1104`), so that the file operations alone do not give one.
- Reservation.NoStaleStore: a store either happens completely or not at all; a crash of the machine is not modelled.
- DbStore.Database.Store: permissions, ownership and the lock around the rewrite are reduced to one outcome that may be an error; files are sequences of the lines that `fgets` returns.
- DbEntry.LoadEntry: the number conversions of `sscanf` follow the C library of GNU/Linux, with 64-bit accumulation.
- Agent.Agent.Execute: what getters and setters of the library return is arbitrary where it is not fixed by the state, except for the static password; the path lookup of `db_file_unlock` is taken to succeed, and user names to fit the argument of a reply (255 bytes); assertions about the configuration and the privileges of the process are left out.
- Pam.SmAuthenticate: delays and texts are not part of the trace; of a message sent before every answer it does not tell whether it arrived.
- Configuration parsing apart from the alphabet check, the strength check of static passwords, random numbers, the PAM conversation, pipes, privileges and logging.
