# A model of the ISO 8583 switch

The switch takes card messages from a network, turns them into a record of its own, has them answered by one of two
processes, and sends the answers back. This project models its five connected parts and proves what they promise.

* **The message codec.** `cardcoToExtern` and `externToCardCo` are two loops over fields 1 to 64 that move a cursor by
  amounts that depend on the field and on the data. `Digits`, `Conversions`, `Ebcdic`, `Zoned` and `Money` are the
  conversions they rest on; `Shapes` has the few forms a field takes on the wire, `Layout` the member of the record
  each field is kept in, `Wire` one turn of either loop, `Codec` the whole loops and the laws between them,
  `RoundTrip` the same laws member by member, `Reader` the decoder's cursor alone. `Fields` says for every field in
  figures what is read and written for it, without those shapes. `Encoder` and `Decoder` are the loops on the byte
  buffer, converting in place, proved against those functions. `Frame` and `FrameLaws` are the header around a message.
* **Bit maps** (`Bitmaps`, `Templates`): the walking loops, proved against sets of field numbers, and the templates.
* **The four processes** (`Inbound`, `Authorizer`, `PayBal`, `Outbound`, `Codes`; `Switch` for the step system,
  `Processes` for the bodies of the four endless loops on shared queues, `Routing` for which process a request goes to,
  `Requests`, `Answers` and `Echo` for what holds on every run, `Example` and `Payment` for one run through either
  answering process).
* **The link** (`Link`): fragments, short and interrupted writes.
* **The calendar** (`Calendar`): adding days a month at a time.

FMT_BTOS sends a short through an int pointer, so what follows it in `struct internalmsg` matters. The record is laid
out here as a little-endian machine with 32-bit `int` and `long` and natural alignment does (`Layout.Behind`).

A character string is the sequence of the bytes before its NUL. A `char` array that holds a shorter string is filled
with NULs behind it, as the records are cleared before use. `int` and `long` are 32 bits wide; a negative number that
is packed is read as unsigned, as `__itoa` does (`Digits.Unsigned`).

## What the code does that its comments do not say

* Bit 0 of a map is never set and never seen, since `256 >> 0` does not fit a byte (`Bitmaps.SetOnZero`,
  `Bitmaps.BitZero`). So a template never switches on its second map, and a header always has eight map bytes.
* `setBitOff(n)` removes field `8*(n/8)+8-(n%8)` (`Bitmaps.SetOffFields`). A declined sale therefore keeps field 38 and
  would lose field 35 (`Outbound.DeclineKeepsAuthnum`); `adjust_bitmap(23, 41, 42)` copies fields 22, 40 and 41.
* Fields 18, 19, 22, 23, 25, 49, 50, 51 and 60 go out as the leading digits of the short plus 65536 times the two bytes
  behind it. A zero there is harmless (`Layout.NothingBehind`), other values only by luck (`RoundTrip.LuckyShort`):
  country 76 in front of card number 1 goes out as 6561 (`RoundTrip.CountrySpoiled`), so that the answer to a sale does
  not repeat it (`Echo.CountryLost`). `Layout.Unspoiled` says that what goes out is what the record holds; by what is
  behind the short it is settled in `Layout.SpoiledBehind`.
* The trace number of a sale is kept only when field 10 was present, because the test looks one bit too low
  (`Echo.KeptTrace`). A 0100 without a field 10 is answered with its own field 11 only by coincidence
  (`Echo.TraceEchoes`, `Example.CaseRun`).
* The expiry date of field 14 comes back exactly when its second half is a month and its first half is 13 or more, or
  that month (`Codec.ExpirySurvives`); track 2 exactly when its length is even (`Codec.TrackSurvives`).
* Field 48 fills its length byte in the C and D layouts; the third layout writes 48 bytes under a length of 36
  (`Wire.PrivateLengths`).
* An answer announces field 40 when its request did, and does not write it; with the third layout of field 48 that is
  where a reader of the answer loses his place (`Echo.RunKeepsStep`).
* A reversal whose database fails is answered with 00 (`Answers.ReversalIntegrity`).
* The high byte of the link header is always zero, so a message of 256 bytes or more is cut (`Link.SentIsReceived`).
* The last issuer of paybal.ini is never served (`PayBal.LastIssuer`).
* 29 February 2100 is taken for a date (`Calendar.NotIn2100`); additions are Gregorian exactly until then
  (`Calendar.PlusIsGregorian`).
* The low byte of the link header is or-ed into a cell that was never set (`Link.StaleHeader`).

## Model

| member | source | states |
|---|---|---|
| Bitmaps.IsBitSet | v_misc.c:32-45 | the walk by bytes tests exactly the bit of the field, wherever the map lies in its buffer |
| Bitmaps.SetBitOn | v_misc.c:48-57 | changes the one bit of the field, and nothing else of the buffer |
| Bitmaps.SetBitOff | v_misc.c:60-63 | changes the one bit it addresses, and nothing else of the buffer |
| Bitmaps.SetOnFields | v_misc.c:48-57 | as sets of fields, setBitOn is insertion |
| Bitmaps.SetOffFields | v_misc.c:60-63 | as sets, setBitOff(n) removes exactly field 8*(n/8)+8-(n%8) |
| Bitmaps.SetOnZero | v_misc.c:48-57 | switching bit 0 on leaves every map as it was |
| Bitmaps.BitZero | v_misc.c:32-45 | bit 0 is never seen set |
| Bitmaps.SameFields | v_misc.c:32-57 | two maps of the same length that select the same fields are the same bytes |
| Bitmaps.EditInBuffer | v_misc.c:48-63 | an edit of a map inside a larger buffer is that edit of the map alone |
| Bitmaps.MakeBitmap | bitmap.c:119-132 | adds exactly the numbers of the index list to the map, second-map bit included |
| Bitmaps.AdjustBitmap | v_util.c:108-128 | the outgoing map becomes its union with the incoming bits one below each listed position; nothing is cleared, nothing around the map changes |
| Templates.MapStore.CreateBitmaps | bitmap.c:109-116 | after it every static map selects exactly the fields of its index list |
| Templates.MapStore.FindBitmap | bitmap.c:92-105 | the static buffer gets the map of the first matching row; without one nothing is written |
| Templates.MapStore.Serve | bitmap.c:92-105 | over any run of lookups and edits through the returned pointer, no template changes and every lookup starts again from its list |
| Templates.MapStore.ServeOne | bitmap.c:92-105 | one lookup or edit keeps every template |
| Templates.FirstMatch | bitmap.c:97-104 | the row found matches and no earlier row does |
| Templates.LookupByType | bitmap.c:71-89 | for the authorization and reversal types the row found is the one of that type, whatever the device |
| Templates.NoTemplate | bitmap.c:71-104 | types 111, 210, 211, 230, 411 and 430 have no template |
| Digits.ItoaText | v_misc.c:550-580 | always tam decimal digits |
| Digits.ItoaValue | v_misc.c:550-580 | the digits left in dest denote the value divided by ten for every digit there is no room for, so a value that fits is kept |
| Digits.LeadingText | v_misc.c:550-580 | those leading digits are the padded text of the number they denote |
| Digits.LeadingHeads | v_misc.c:550-580 | the digits left of a number that is too long are those of s exactly when s has all of them and heads the number |
| Digits.ValueDecimal | v_misc.c:550-580 | the zero-padded digits denote the number |
| Digits.DecimalValue | v_misc.c:550-580 | a digit string is the padded text of the number it denotes |
| Digits.UnpackPack | v_misc.c:339-443 | bcdtochar after chartobcd is the identity on strings over 0x30..0x3F, of any length and parity, whatever follows |
| Digits.PackUnpack | v_misc.c:339-443 | chartobcd after bcdtochar restores the bytes, an odd count needing its unused half byte clear |
| Digits.BtoiItob | v_misc.c:249-275 | btoi after itob gives v for an even count and v/10 for an odd one |
| Digits.UnpackItob | v_misc.c:99-108 | itob, bcdtochar and atoi restore v for either parity |
| Digits.ItobBtoi | v_misc.c:249-275 | of an even count of decimal nibbles btoi reads a number that itob packs into the same bytes |
| Digits.ItobUnpack | v_misc.c:101-108 | the same for bcdtochar, for either parity |
| Conversions.Reverse | v_misc.c:570-577 | turns the digits round in place and leaves the rest |
| Conversions.Itoa | v_misc.c:550-580 | divisions, padding, reversal and copy put the padded or leading digits at dest and nothing elsewhere |
| Conversions.Chartobcd | v_misc.c:416-443 | writes the packed form of any characters, odd counts with an empty first half byte |
| Conversions.Itob | v_misc.c:401-409 | the decimal text of the unsigned reading of an int, packed |
| Conversions.Bcdtochar | v_misc.c:339-367 | the characters of the nibbles, an odd count skipping the first, and the bytes taken |
| Conversions.BtoiScan | v_misc.c:249-275 | atoi of the nibbles from the left, whatever the parity |
| Ebcdic.EncodedByte | v_misc.c:792-870 | no character encodes to DLE or SYNC; it comes back exactly when it is NUL or printable other than a square bracket |
| Ebcdic.EtoaAtoe | v_misc.c:776-958 | a string comes back from EBCDIC exactly when all its characters do, and never meets the codes that divert the loop |
| Ebcdic.AtoeEtoa | v_misc.c:776-958 | canonical bytes are restored by atoe after etoa |
| Ebcdic.CanonicalExactly | v_misc.c:776-958 | the byte strings that are restored by atoe after etoa are exactly the encodings of text that comes back |
| Ebcdic.AtoeLetters | v_misc.c:776-818 | the codes of digits and letters in figures; what is not printable goes out as zero |
| Ebcdic.AtoeMarks | v_misc.c:776-818 | the codes of the other printable characters in figures |
| Ebcdic.EtoaOneWay | v_misc.c:820-958 | the codes that asciitab gives a character which goes out as another code or as none, in figures; every other code it knows is the one its character goes out as |
| Ebcdic.Atoe | v_misc.c:776-818 | in place, exactly the cells named |
| Ebcdic.Etoa | v_misc.c:820-958 | in place; stops without a change at the first diverted code |
| Zoned.BinaryZoned | v_misc.c:960-992 | toBinary after toZoned is the identity on every byte string |
| Zoned.ZonedBinary | v_misc.c:960-992 | the other order gives the hexadecimal text in upper case |
| Zoned.ZonedByte | v_misc.c:960-969 | a byte is displayed as its high and its low digit, 0 to 9 and then A to F |
| Zoned.ToZonedScan | v_misc.c:960-969 | two characters a byte, high nibble first |
| Zoned.ToBinaryScan | v_misc.c:972-992 | writes the bytes of the hexadecimal characters ahead of the first other one, a last single one as a high nibble |
| Money.MoneyMeaning | v_misc.c:109-158 | the text is units, point, two cents; the units have no leading zero; 100 times units plus cents is the number the digits denoted |
| Money.PutPoint | v_misc.c:112-115 | the point goes in front of the last two characters, in place |
| Money.StripInPlace | v_misc.c:116-122 | the leading zeros go, stopping at the point at the latest |
| Money.InsertPoint | v_misc.c:145-155 | both together give the text that MoneyMeaning is about |
| Shapes.GetPut | v_misc.c:66-243 | for every form a field takes on the wire, reading what was written restores the value and stops at its last byte, whatever follows |
| Shapes.PutGet | v_misc.c:66-243 | writing what was read from canonical bytes gives those bytes again |
| Layout.StoreGives | v_tocardco.c:112-588 | a value that its field can keep is stored so that it is the content the encoder takes from the record |
| Layout.StoreKeepsOthers | v_tocardco.c:112-588 | storing one field leaves the members of every other one alone, but for the three that share track 2 |
| Layout.RefnumDigits | v_tonet.c:322-344 | a reference number of twelve digits goes out and comes in as it is |
| Layout.NothingBehind | v_misc.c:195-198 | a short in its range is sent as it is when the two bytes behind it are zero |
| Layout.SpoiledBehind | v_misc.c:195-198 | a short is sent as it is exactly when the two bytes behind it are zero, or it has all its digits and heads the int of which it is the low half |
| Layout.SmallSpoiled | v_misc.c:195-198 | one that does not fill its digits, exactly when those bytes are zero |
| Layout.CutExact | v_tocardco.c:319-333 | the reference number ends ahead of its first blank |
| Wire.PassiveAligned | v_tonet.c:111-587 | for a field without a carried value, the decoder takes the bytes the encoder wrote exactly under the condition Aligned, whatever follows |
| Wire.PrivateLengths | v_tonet.c:424-460 | field 48 fills its length byte exactly in the C and D layouts; otherwise it writes 48 bytes under a length of 36 |
| Wire.NetworkBodyLength | v_tonet.c:544-587 | field 63 writes as many bytes behind its map as the decoder takes for that map |
| Wire.ReadKeepsOthers | v_tocardco.c:112-588 | reading a field never disturbs the members of an independent one |
| Fields.SixIn | v_tocardco.c:173-187 | fields 11 and 12 are three bytes each and give trace number and local time; anything shorter leads off the data |
| Fields.FourIn | v_tocardco.c:233-260 | fields 18, 19, 22 and 23 are two bytes each, and which member each gives |
| Fields.DatesIn | v_tocardco.c:187-233 | fields 13, 15 and 16 are two bytes each, with the year put in front |
| Fields.StampIn | v_tocardco.c:150-165 | field 7 is five bytes: month and day, then the time |
| Fields.PcodeIn | v_in.c:379-438 | field 3 is three bytes; which codes are let in, as which kind, and that the others reject the message |
| Fields.ExpiryIn | v_tocardco.c:192-210 | field 14 is two bytes; what it leaves in track 2, and which dates reject the message |
| Fields.ThreeIn | v_tocardco.c:421-438 | fields 49, 50 and 51 are two bytes each, of which the first half byte is skipped |
| Fields.ConditionIn | v_tocardco.c:260-264 | field 25 is one byte of two digits |
| Fields.PinCapIn | v_tocardco.c:264-272 | field 26 is one byte as it is |
| Fields.CapIn | v_tocardco.c:483-489 | field 60 is two bytes, of which the first is not looked at |
| Fields.AmountIn | v_tocardco.c:136-142 | field 4 is six bytes, twelve characters |
| Fields.PackedIn | v_tocardco.c:119-303 | fields 2 and 33 are a length byte, at most 19 and 10, and that many characters two a byte |
| Fields.InstitutionIn | v_tocardco.c:276-293 | field 32 likewise, at most 11; more than nine are kept apart and replaced |
| Fields.TrackTwoIn | v_tocardco.c:309-319 | field 35 likewise, at most 79, and an odd one loses its first character |
| Fields.TextIn | v_tocardco.c:319-374 | fields 37, 38, 41, 42 and 43 are 12, 6, 8, 15 and 40 bytes of EBCDIC, and which member each gives |
| Fields.VarTextIn | v_tocardco.c:383-391 | fields 45 and 59 are a length byte, at most 79 and 14, and that many bytes of EBCDIC |
| Fields.BinaryIn | v_tocardco.c:438-447 | fields 52 and 64 are eight bytes, sixteen hexadecimal characters |
| Fields.SkippedIn | v_tocardco.c:113-354 | fields 1, 9, 10, 20, 21, 28 and 40 are stepped over by 8, 4, 4, 2, 2, 9 and 3 bytes |
| Fields.AnnouncedIn | v_tocardco.c:391-421 | fields 34 and 48 are stepped over by their length byte |
| Fields.AmountsIn | v_tocardco.c:142-150 | fields 5 and 6 are six bytes each, and which member gets which amount |
| Fields.BalancesIn54 | v_tocardco.c:457-476 | field 54 is 21 or 42 characters behind a length byte; characters 10 to 21 are the available balance, 31 to 42 the cash back |
| Fields.CashBackIn61 | v_tocardco.c:489-512 | field 61 is a length byte and six bytes, and more when that announces more |
| Fields.SecurityIn | v_tocardco.c:447-457 | field 53 is eight bytes, of which the first four are kept |
| Fields.PaymentIn | v_tocardco.c:512-536 | of field 62 the length is kept and nine bytes are taken |
| Fields.NetworkIn | v_tocardco.c:536-583 | field 63: what every bit of its map adds to it, where each number stands, and which member it gives |
| Fields.OthersIn | v_tocardco.c:94-113 | the other primary fields have no case of their own |
| Fields.FieldBit | v_misc.c:32-45 | field f is the bit 7 - (f - 1) % 8 of byte (f - 1) / 8 of a map |
| Fields.SixOut | v_tonet.c:133-189 | fields 3, 11 and 12 go out as three bytes, two digits each |
| Fields.StampOut | v_tonet.c:151-167 | field 7 goes out as five bytes: month, day, hour, minute, second |
| Fields.DatesOut | v_tonet.c:189-238 | fields 13, 15 and 16 go out as month and day |
| Fields.ExpiryWritten | v_tonet.c:194-219 | field 14 goes out from the four characters behind the separator of track 2: 1111 for none, a leading month put behind |
| Fields.ShortsOut | v_misc.c:195-198 | fields 18, 19, 22, 23 and 25: the short, the bytes behind it, and how many leading digits of both together go out |
| Fields.CurrenciesOut | v_misc.c:195-198 | fields 49 and 51 likewise, with three digits |
| Fields.TextBehindOut | v_misc.c:195-198 | fields 50 and 60 likewise, with characters behind them |
| Fields.LeadingBytes | v_misc.c:195-198 | those digits in bytes |
| Fields.PanOut | v_tonet.c:117-143 | fields 2, 4 and 26 go out as length and packed digits without leading zeros, twelve packed characters, and one byte |
| Fields.IdsOut | v_tonet.c:282-311 | fields 32 and 33 likewise, the first from the number kept apart when there is one |
| Fields.TrackOut | v_tonet.c:315-322 | fields 35 and 45: track 2 packed, and in EBCDIC |
| Fields.TerminalOut | v_tonet.c:346-378 | fields 38 and 41: six and eight characters in EBCDIC |
| Fields.AcceptorOut | v_tonet.c:378-393 | fields 42, 43 and 59: fifteen and forty characters, and a length with its text, in EBCDIC |
| Fields.RefnumOut | v_tonet.c:322-346 | field 37: leading blanks become zeros, what follows the digits is cut off, and blanks fill up to twelve |
| Fields.BinaryOut | v_tonet.c:480-489 | fields 52 and 64: the eight bytes that sixteen hexadecimal characters stand for |
| Fields.AmountsOut | v_tonet.c:143-151 | fields 5, 6, 39, 53 and 61, with their constants |
| Fields.GapsOut | v_tonet.c:167-282 | what is left out of fields 9, 10, 20, 21 and 28, and that the other fields write nothing |
| Fields.PrivateOut | v_tonet.c:424-460 | field 48 part by part in its three layouts |
| Fields.PaymentOut | v_tonet.c:520-544 | field 62: its length, eight zeros and the parts of its three indicator bits |
| Fields.NetworkOut | v_tonet.c:544-589 | field 63: its length, its map, and what follows |
| Fields.NetworkCodesAre | v_tonet.c:544-589 | the numbers of field 63, bit by bit |
| Fields.NetworkGapsAre | v_tonet.c:544-589 | its gaps, bit by bit |
| Codec.DecodedKeeps | v_tocardco.c:94-869 | decoding all later fields leaves the members of an earlier one alone |
| Codec.DecodeEncoded | v_tocardco.c:94-869 | cursor alignment: on the encoder's bytes the decoder accepts, stops exactly at their end whatever follows, and stores for every carried field the value that went out for it |
| Codec.SentContents | v_tonet.c:88-899 | so the content of every carried field is then that value |
| Codec.ReencodeDecoded | v_tonet.c:88-899 | what was decoded from an encoded message encodes to the same bytes exactly when no short of the decoded record is spoiled by what is behind it, nor its expiry date swapped |
| Codec.CanonicalFits | v_tocardco.c:112-588 | a value read from canonical bytes is one that survives the wire |
| Codec.EncodeDecoded | v_tocardco.c:112-588 | the other direction: canonical bytes are accepted, and re-encoding the record under the same map gives them back exactly under that condition |
| Codec.WrittenAs | v_misc.c:168-243 | a field whose content fits goes out as that content exactly when it is unspoiled, and takes as many bytes in either case |
| Codec.ExpirySurvives | v_tonet.c:194-217 | an expiry date comes back exactly when its second half is a month and its first half is none or the same |
| Codec.TrackSurvives | v_tocardco.c:309-317 | track 2 comes back exactly when its length is even; the cursors agree either way |
| Codec.PanSurvives | v_tonet.c:117-131 | a PAN comes back without its leading zeros, so as itself exactly when it has none |
| Reader.ReadSteps | v_tocardco.c:112-588 | where the decoder reads a field, it moves the cursor by an amount that depends on the bytes alone |
| Reader.DecodedLooks | v_tocardco.c:94-869 | where it comes through a message, it stops where a reader who follows the map stops |
| Reader.LooksThere | v_tonet.c:88-899 | as long as every step fits, that reader comes to each field where the encoder put it, byte for byte |
| RoundTrip.DecodeRestores | v_tonet.c:88-899 | for every map over 29 carried and 14 cursor-only fields and every well-formed record, the decoder takes exactly the encoder's bytes, and a selected member has its value, dates without their year, exactly when it is unspoiled |
| RoundTrip.OnlyShortsSpoil | v_misc.c:195-198 | of the well-formed fields only shorts can be spoiled, and only by bytes behind them that are not zero |
| RoundTrip.CountrySpoiled | v_misc.c:195-198 | country 76 in front of card number 1 goes out as the digits 6561 |
| RoundTrip.LuckyShort | v_misc.c:195-198 | merchant type 7281 in front of country 1 survives all the same |
| RoundTrip.WellFormedReady | v_tonet.c:88-899 | a record with members of the right length, digits and ranges is one the codec laws apply to |
| Encoder.PutMoney | v_misc.c:199-223 | FMT_BTOM out: low nibbles from the left, into cells that were zero |
| Encoder.PutShape | v_misc.c:168-243 | formatOut, but for FMT_BTOS, writes the wire form of a value and returns its length |
| Encoder.PutShort | v_misc.c:195-198 | FMT_BTOS packs the int that starts at the short, which leaves its leading digits |
| Encoder.EditRefnum | v_tonet.c:331-334 | in the record, leading spaces become zeros and the text ends at the first character that is not a digit |
| Encoder.PutRefnum | v_tonet.c:322-344 | and those twelve characters go out |
| Encoder.PutPrivate | v_tonet.c:424-460 | field 48 in each of its three layouts |
| Encoder.PutPayment | v_tonet.c:520-542 | field 62 with the parts its indicator calls for |
| Encoder.PutNetwork | v_tonet.c:544-587 | field 63, its length byte filled in last |
| Encoder.PutField | v_tonet.c:111-593 | one turn of the switch writes that field's bytes at the cursor, nothing else, and moves the cursor behind them |
| Encoder.PutFields | v_tonet.c:88-899 | the loop writes the encoding of the record under the map that lies ahead of it in the same buffer; the reference number is edited exactly when field 37 was sent |
| Decoder.ShapeIn | v_misc.c:66-165 | formatIn reads the wire form, converting EBCDIC in place and touching no other cell |
| Decoder.MoneyFrom | v_misc.c:128-158 | FMT_BTOM in |
| Decoder.BalancesIn | v_tocardco.c:457-474 | field 54 takes 22 or 43 bytes whatever its length byte says |
| Decoder.NetworkIn | v_tocardco.c:544-579 | the members field 63 sets, by its map |
| Decoder.FieldIn | v_tocardco.c:112-588 | one turn of the switch: the record after the field, or the rejection, and no cell behind the field changed |
| Decoder.GetFields | v_tocardco.c:94-869 | the loop computes the decoding of the bytes behind the map, rejections included |
| Frame.GetHeader | v_header.c:21-51 | finds number, map and body from the length byte, eight map bytes always |
| Frame.BuildHeader | v_header.c:54-107 | header, map and nothing else in the cleared buffer; an answer takes its addresses from what was saved |
| Frame.AnswerGoesBack | v_header.c:131-157 | the header of an answer has source and destination of its request exchanged, and its round trip, batch, reserved and user bytes |
| Frame.FinishFrame | v_out.c:165-175 | number, body, both length bytes and prefix complete the frame |
| FrameLaws.FrameFound | v_header.c:21-107 | get_header finds in a built frame the number, map and body that were laid out; it is taken for a reject exactly from type 8000 on; the length bytes recombine to the bytes behind the prefix |
| FrameLaws.FrameCellsAre | v_out.c:160-175 | the bytes of a frame: C2 C9 E9 E9, the header of 22 with the length in its fourth and fifth, two of the number, eight of the map, the fields |
| FrameLaws.HeaderCellsAre | v_header.c:57-107 | the header of an answer, byte by byte |
| FrameLaws.TypeFound | v_in.c:62 | the message number read back is the one that was written |
| FrameLaws.FrameRoundTrip | v_out.c:130-175 | where get_header looks in a whole frame, decoding takes every byte and restores exactly the selected fields that are unspoiled |
| FrameLaws.EncodedBound | extern.h:9 | prefix and frame of every well-formed message over the two field sets fit 1024 bytes |
| Codes.OutCodeLaws | v_out.c:650-704 | the outbound map gives two digits for every code, and zero for approval alone |
| Codes.OutCodeTable | v_out.c:650-704 | which codes go out as which, both ways round |
| Codes.InCodeTable | v_in.c:648-745 | which codes come in as which |
| Codes.OutInSurvives | v_in.c:648-745 | the codes that are what they were after the way out and in again, exactly |
| Codes.InOutApproval | v_in.c:648-745 | mapping in what was mapped out neither creates nor loses an approval |
| Codes.InOutSettles | v_in.c:648-745 | a code that went out and in once stays what it is on every further round |
| Codes.PcodeKept | v_out.c:371-424 | a processing code goes out unchanged exactly when its kind is none of 4, 9 and 17 |
| Codes.KindOut | v_out.c:371-424 | kinds 4, 9 and 17 go out as 3, 0 and 1, any other as itself, with both accounts |
| Codes.AcceptedPcodeKept | v_in.c:379-438 | every processing code that is accepted goes out as it came in |
| Authorizer.PutPan | auth.c:293-299 | always nineteen characters are copied; the field gets the padded PAN and the spill ends 38 cells on |
| Authorizer.PrepareAuthorization | auth.c:257-373 | for every PAN of up to 19 characters the finished record holds the specified contents in every field |
| Authorizer.RecordPan | auth.h:27-53 | the PAN field is the PAN with zeros on the left, and no other field of the record depends on it |
| Authorizer.RecordNumbers | auth.h:27-35 | cells 0 to 3, 4 to 9 and 43 to 46 are the digits of message type, processing code and merchant category |
| Authorizer.RecordHead | auth.h:27-35 | cells 10 to 42: reference number, P, merchant and terminal |
| Authorizer.RecordPanCells | auth.h:35 | cells 47 to 65: zeros and the PAN |
| Authorizer.RecordTail | auth.h:36-52 | cells 66 to 107: expiry, amount, down payment, PIN, instalments and plan; from 108 on zeros, where the answer of the database starts |
| Authorizer.RouteFrom | auth.c:505-516 | the route is the first connection with the issuer's six digits, or -1 when there is none |
| Authorizer.GetRoute | auth.c:505-516 | the search loop finds that route |
| Authorizer.AuthRoutes | auth.c:417-471 | a listed issuer: sales and reversals go to the first connection with the first six characters of the PAN |
| Authorizer.AuthUnlisted | auth.c:417-471 | an unlisted one: a sale has no connection, a reversal goes by terminal 003, 013 or 023 |
| Authorizer.StripTrailingBlanks | auth.c:559-566 | the blanks at the end of the string become NULs, in place |
| Authorizer.BlankedExact | auth.c:559-566 | what turns into NULs is the blanks at the end and nothing else |
| Authorizer.BlankedKeeps | auth.c:559-566 | which changes the value of no number in the answer |
| Authorizer.ApprovedReply | auth.c:375-392 | an answer has code zero exactly when the database answered with code zero and an authorization code other than zero |
| Authorizer.AnswerCells | auth.c:375-412 | the members an answer sets, by the cells of the record: code 108 and 109, authorization 114 to 119, balances 156 to 167 or 128 to 139; 91 for two zeros |
| Authorizer.NoAnswerCells | auth.c:460-470 | without an answer: 96 |
| Authorizer.ReplyKeeps | auth.c:375-415 | an answer differs from its request in type, authorization number, response code and available balance only |
| Authorizer.Authorize | auth.c:417-471 | record, route and reply of one request |
| PayBal.PrepareRequest | paybal.c:283-402 | the finished record holds the specified contents in every field, whatever the PAN spilled |
| PayBal.PayNumbers | paybal.h:27-36 | the digits of message type, processing code and merchant category in the record |
| PayBal.PayHead | paybal.h:27-36 | its cells 10 to 43: reference number, P, kind, merchant and terminal |
| PayBal.PayMiddle | paybal.h:36-38 | its cells 48 to 82: PAN, expiry and amount |
| PayBal.PayTail | paybal.h:39-52 | its cells 83 to 114: date, bank, branch, account and cheque out of the acceptor name; zeros from 115 on |
| PayBal.LastIssuer | paybal.c:277-280 | the last issuer of the table has no route exactly when it is not listed before |
| PayBal.ServedRoute | paybal.c:277-280 | a route is found exactly for such an issuer, and for whatever is no sale |
| PayBal.PayRoutes | paybal.c:450-504 | a reversal goes by terminal 003, 013 or 023, and to connection 0 otherwise |
| PayBal.PaySaleRoute | paybal.c:506-517 | a sale goes to the first issuer ahead of the last that has the first six characters of the PAN |
| PayBal.PayApproved | paybal.c:404-504 | code zero exactly when the database answered with code zero and, for a sale, the issuer is in the table ahead of its last entry |
| PayBal.PayAnswerCells | paybal.c:404-448 | the members an answer sets, by the cells of the record from 115 to 186 |
| PayBal.PayUnasked | paybal.c:496-501 | without a route or an answer: 96 and nothing else |
| PayBal.PayKeeps | paybal.c:404-448 | the members an answer changes, and their widths |
| PayBal.DoIt | paybal.c:450-504 | record and reply of one request, 96 without a route or an answer |
| Inbound.ReadMessage | v_in.c:39-176 | one turn of the loop: dropped, passed on or routed, the record it writes, and the trace counter it leaves |
| Routing.Routed | v_util.c:10-28 | a queued request goes to PayBal exactly when its field 43 begins with E2 D7 C6 7E or its field 54 gives a balance, and else to Auth |
| Routing.BalanceInFigures | v_util.c:18-22 | twelve digits give one exactly when they denote a hundred cents or more |
| Routing.PayBalanceIs | v_util.c:10-28 | the same by the members of the record |
| Routing.QueuedKinds | v_in.c:62-176 | queued are exactly the messages 0100, 0120 and 0400 that are no rejects and can be decoded; 0302 and 0312 are passed on |
| Routing.KeptAs | v_in.c:488-560 | what is changed of a decoded record: trace number, local date and time of a sale, codes of a reversal |
| Routing.AbsentFields | v_in.c:89-100 | what a request does not carry is zero or empty in its record |
| Routing.HeaderSaved | v_header.c:131-160 | what is saved of the header, byte by byte |
| Routing.CounterMoves | v_in.c:497-506 | the trace counter moves by a sale without field 10, and comes round after a thousand |
| Requests.ReceivedOk | v_in.c:89-176 | every request that is queued has members an answer can be made from, its type noted beside it, and lies in the queue its kind calls for |
| Requests.AuthAnswerOk | auth.c:375-471 | every answer of Auth can be encoded, with a code of at most two digits |
| Requests.PayAnswerOk | paybal.c:404-504 | every answer of PayBal can be encoded |
| Requests.AnswerEmitted | v_out.c:52-205 | no answer is lost on its way out: a sale's is sent, an advice's is kept back, a reversal's is sent or, for a balance inquiry, written as a record |
| Outbound.DeclineKeepsAuthnum | v_out.c:492-494 | every 0110 has field 38 and none has field 35; setBitOff(37) is about field 35 |
| Outbound.BaseIsTemplate | bitmap.c:26-56 | the fields a 0110 and a 0410 start from |
| Outbound.EmitCases | v_out.c:48-175 | which answers are dropped, written as a record, kept back and sent, in figures |
| Outbound.ReplyFits | v_out.c:94-175 | the map of an answer never has fields 1 and 44, and its frame fits the buffer |
| Outbound.AuthResponse | v_out.c:477-515 | the mapped code, and the map bit by bit |
| Outbound.ReversalResponse | v_out.c:555-585 | code zero unless there was nothing to reverse, and the map bit by bit |
| Outbound.MakeReply | v_out.c:87-175 | the finished frame is the specified one, and no template is changed by making it |
| Outbound.EmitMessage | v_out.c:40-215 | one turn of the loop: dropped, written as a record, kept back, or sent as that frame |
| Switch.StepKeeps | v_in.c:39-176 | every turn of every process keeps the invariant: what is in a queue was made from the request it is filed under, by the process that filed it |
| Switch.RunKeeps | auth.c:206-228 | so it holds in every state of every run |
| Switch.StepConserves | v_out.c:40-215 | a turn moves one message from one place to another and only an arrival adds one |
| Switch.RunConserves | v_in.c:39-176 | over every run, each message is in as many places as it arrived times |
| Switch.OneAnswer | paybal.c:206-228 | on every run, a message that arrived once and was answered was answered once, is nowhere else, and no answer lacks a request |
| Switch.OutAlwaysEnabled | v_out.c:40-215 | in every reachable state ToVisa can take the next answer, drops none, and keeps back those of advices alone |
| Processes.Station.TurnFromVisa | v_in.c:39-176 | the body of the loop on the queues is that step of the system |
| Processes.Station.TurnAuth | auth.c:206-228 | the same for Auth, with the record it asks the database with |
| Processes.Station.TurnPayBal | paybal.c:206-228 | the same for PayBal |
| Processes.Station.TurnToVisa | v_out.c:40-215 | the same for ToVisa |
| Answers.AnswerHas | v_out.c:130-175 | a field of an answer that is in reach is what a reader of its frame finds where he looks for it |
| Answers.AnswerInStep | v_tonet.c:365-367 | the reader of an answer stands at every field and at the end where the encoder stood, exactly when field 40 is not announced and field 48 fills its length |
| Answers.EndsByLuck | v_tocardco.c:349-352 | coming out at the end is not enough for that: a reader who lost his place at field 40 may take exactly the bytes of the body |
| Answers.CodeSent | v_tonet.c:353-363 | field 39, as a reader finds it: for a 0110 it is 00 exactly on approval, for a 0410 it is 21 or 00 |
| Answers.CodeShown | v_out.c:650-704 | the two bytes a reader finds in field 39 of a 0110, for every code |
| Answers.AnswerFields | v_out.c:94-128 | the fields an answer announces |
| Answers.ApprovalIntegrity | auth.c:375-392 | on every run, the 0110 sent through AUTHQ says 00 exactly when the database answered, its response code parses to zero and its authorization code to another number; through PAYBAL exactly when the issuer is served and its database answered with zero; and it shows the code of the database that was asked, 91 for a zero without authorization, 96 for none |
| Answers.ReversalIntegrity | v_out.c:555-585 | on every run, the 0410 sent through AUTHQ or PAYBAL says 21 exactly when the database answered with 9, 10 or 98, and 00 in every other case |
| Answers.AnswerAddressed | v_header.c:87-103 | on every run, every framed answer has the number of its kind and the addresses of its request exchanged |
| Echo.DecodedHolds | v_tocardco.c:94-869 | after a message was decoded, a field that was canonical where the decoder read it is in the record with its value, whatever the other fields were |
| Echo.DecodedLands | v_tocardco.c:94-869 | canonical or not, what the decoder read for a field is what its members hold in the end |
| Echo.HeldWritten | v_tonet.c:88-899 | a value the record holds goes out as the bytes it came in exactly when it is unspoiled |
| Echo.KeptTrace | v_in.c:488-515 | the trace number is kept exactly when the message is no sale, field 10 was there, or the invented number is the same |
| Echo.FieldThrough | v_out.c:371-424 | no process changes a field that an answer repeats |
| Echo.SpoiledThrough | v_out.c:371-424 | nor what is behind its shorts |
| Echo.EntryEchoes | v_out.c:94-175 | a reader of the answer finds in fields 2, 3, 4, 7, 22, 32, 37, 41 and 49, for a sale also 19 and 25, for a reversal also 11, the very bytes the request had, whenever those were canonical; in the shorts among them exactly when the decoded request does not spoil them; 41 and 49 have to be in reach |
| Echo.CountryLost | v_tonet.c:243-244 | a sale with country 76 and card number 1 is not answered with its country |
| Echo.CountryEchoes | v_tonet.c:243-244 | a country below 1000 is repeated exactly when the request has no card number, or zero |
| Echo.RunEchoes | v_in.c:39-176 | and so on every run |
| Echo.RunKeepsStep | v_tonet.c:365-367 | on every run, the reader of a framed answer keeps step with its encoder exactly when the request had no field 40 and field 48 of the answer, if it has one, is in layout C or D |
| Example.PlainRun | v_in.c:39-176 | a sale with a PAN whose issuer has a connection goes through all four queues and its answer is on the line |
| Example.PlainAnswer | v_in.c:497-506 | that answer repeats the trace number exactly when it is the day of the year, and the country exactly when the card number is zero |
| Example.CaseRun | v_tonet.c:243-244 | in numbers: trace number 7, country 76 and card number 1, read on 1 January, come back with neither trace number nor country |
| Payment.BillEnds | paybal.c:450-504 | a payment announced by SPF= goes through all queues to PayBal; its answer shows what the database of a served issuer said, 96 of any other, and has field 48 exactly when that is zero |
| Payment.BillQueued | v_util.c:10-28 | it is queued for PayBal, whatever follows SPF= in field 43 |
| Echo.TraceEchoes | v_in.c:497-506 | the answer to a sale repeats field 11 exactly when the request has a field 10 or the invented trace number is the one that came |
| Link.WriteOnce | sockhelp.c:241-243 | an interrupted write is tried again, and nothing is sent twice |
| Link.SendToNet | sockhelp.c:225-253 | what goes out is what one write took of the header and then a prefix of the message, the whole of it under every schedule that makes progress |
| Link.HeaderNeedsOneWrite | sockhelp.c:234-237 | the header goes out whole exactly when its one write takes two bytes |
| Link.StaleHeader | sockhelp.c:229-232 | the header says the low byte of the length exactly when every bit of the cell that was never set is a bit of that byte |
| Link.StaleTwo | sockhelp.c:229-232 | one byte is announced as three when that cell holds a 2 |
| Link.RcvFromNet | sockhelp.c:166-221 | a fragmented message is put together in the buffer and its length returned; -1 for everything else; the stream stands behind what was read |
| Link.Reassembled | sockhelp.c:190-217 | reassembly of any pieces under 128 bytes is their concatenation, and stops at the next frame |
| Link.CutIsFramed | sockhelp.c:181-188 | a first piece that is not empty is what lets the message through |
| Link.CutBytes | sockhelp.c:166-221 | the bytes of a message in one and in two pieces |
| Link.SentIsReceived | sockhelp.c:166-253 | a message of 1 to 127 bytes is received as sent; of a longer one no more than its low length byte admits, when that is 1 to 127 |
| Link.ZeroLengthLost | sockhelp.c:180-181 | when it is zero the reader stops behind the header and the message is not read |
| Link.Delivered | sockhelp.c:225-253 | 1 to 127 bytes behind a whole header to which the stale cell added no bit are a frame that can be read |
| Link.DeliveredExactly | sockhelp.c:225-253 | what is left on the stream of 1 to 127 bytes reads as those bytes exactly when the header went out whole and the stale cell added no bit to it |
| Link.CutHeader | sockhelp.c:234-237 | a header cut after one byte makes progress, and the message is lost |
| Link.SendAndReceive | sockhelp.c:166-253 | both ends together, under every schedule of short and interrupted writes that makes progress: the message arrives as sent, with the next frame next, exactly under those two conditions |
| Calendar.CountOrders | v_misc.c:583-607 | counting days keeps the order of dates, and a count belongs to one date |
| Calendar.Walk.Distancia1 | v_misc.c:609-642 | one month on, or the day wanted; the sum of date and days left stays, and the days left go down |
| Calendar.SomaData | v_misc.c:644-658 | the loop ends, with the text of the date that many days on |
| Calendar.PlusCounts | v_misc.c:644-658 | the day count of the result is that of the start plus the days |
| Calendar.PlusComposes | v_misc.c:644-658 | additions compose |
| Calendar.MonthLengths | v_misc.c:583-607 | calcUltDia is right except for February of a century year that 400 does not divide |
| Calendar.PlusIsGregorian | v_misc.c:644-658 | from a date of 1901 to 2099 the result is the Gregorian date that many days on exactly when it lies before 29 February 2100 |
| Calendar.PlusStaysGregorian | v_misc.c:644-658 | that is, exactly when fewer days are added than there are up to 29 February 2100 |
| Calendar.NotIn2100 | v_misc.c:601-604 | the day after 28 February 2100 comes out as 29 February, which is no date |
| Calendar.DateBack | v_misc.c:521-548 | a date with a four-digit year reads back as itself |
| Calendar.DateDigits | v_misc.c:538-548 | the text of a date: day, month and year in digits, with slashes between |
| Calendar.TextBack | v_misc.c:521-548 | a text dd/mm/aaaa is written again as it was |
| Calendar.IntegerToDate | v_misc.c:538-548 | writes those ten characters and no others |

## Left out

- Codec.DecodeEncoded: messages with a second map (fields 65 to 128) are not modelled, because bit 0 never announces one and templates cannot ask for it.
- Codec.DecodeEncoded: fields 1, 9, 10, 34, 40, 44 and 54, field 48 outside the C and D layouts, and field 62 with one of its three top indicator bits, where the two cursors part; `Wire.PassiveAligned` says so for all of them but 44, whose encoder moves on by a variable left over from an earlier field.
- Wire.PassiveAligned: field 39 is read without a case in formatIn, so its value is that of a variable never set; it is a parameter (`Layout.Env`).
- Layout.NothingBehind: other layouts of the record; on a big-endian machine, or with 64-bit longs, other bytes are behind a short.
- Encoder.PutFields: strings longer than their arrays, and response codes of three digits, which sprintf spills into the next field; `%012s` pads with blanks here.
- Decoder.GetFields: what the C code does once it reads past the data, overruns an array of the record or meets DLE or SYNC in a text; the method stops with Outside there. The closing NUL of a 13-character money text, one cell past its array, is not modelled.
- Decoder.GetFields: the record overlays of 03xx and 05xx messages; 03xx is switched off at start-up and 0302/0312 are passed on as they are.
- Inbound.ReadMessage: rejects, network management (08xx), administrative and inbound answers (which need the event store behind `achaEvento`); a turn on one of them is Beyond. Requests other than 0100, 0120 and 0400 are, too, since their answers have no template.
- Inbound.ReadMessage: the buffer is given as it stands when the message has been read into it, and of the saved map only its eight bytes are kept, the others never being read.
- Switch.StepKeeps: requests whose amount in field 5, 54 or 61 is 1,000,000,000.00 or more (`Requests.Fitting`): its money text has thirteen characters, one more than fields 48 and 61 go out with.
- Authorizer.Authorize: an unknown issuer, for which the code indexes the table with -1; it is a precondition. Balances are strings of at most twelve characters.
- Switch.StepKeeps: queue writes that fail, which stop the process; the System V queues are lists.
- Inbound.ReadMessage: requests that announce a second map, such as a 0400 with field 90; the decoder steps over that map and reads fields 65 to 128, which are not modelled, so that such a turn is Beyond and in no run.
- Link.SendAndReceive: streams that the reader does not read as frames, when the header was cut or its length is 128 or more.
- Switch.OneAnswer: that a process gets its turn at all.
- Outbound.EmitMessage: routed messages (the type in filler1 is never that of an answer), partial dispenses, and the encoding of a 0130, which is made and then kept back.
- Link.RcvFromNet: short reads, the end of the stream inside a message, lengths of 128 and more (a negative char) and control blocks longer than two bytes.
- Link.SendToNet: connecting, authenticating and closing; the socket is a byte stream with a schedule of write results.
- Calendar.SomaData: negative additions and years beyond four digits, of which the text keeps the leading four.
- The database calls and their generated code: any answer of 512 characters, or a failure.
- Launching, signals, threads, logging and dumps; money.c, which goes through C doubles; superseded copies of files.
