/** The lookup tables of the table-driven checks. A row packs eight entries of the
    table, first entry leftmost; four functions hold a quarter of the rows each. */
module CrcTables {

  function Crc8Entry0(i: bv8): bv64 {
    if i == 0 then 0x00070e091c1b1215
    else if i == 1 then 0x383f363124232a2d
    else if i == 2 then 0x70777e796c6b6265
    else if i == 3 then 0x484f464154535a5d
    else if i == 4 then 0xe0e7eee9fcfbf2f5
    else if i == 5 then 0xd8dfd6d1c4c3cacd
    else if i == 6 then 0x90979e998c8b8285
    else 0xa8afa6a1b4b3babd
  }

  function Crc8Entry1(i: bv8): bv64 {
    if i == 0 then 0xc7c0c9cedbdcd5d2
    else if i == 1 then 0xfff8f1f6e3e4edea
    else if i == 2 then 0xb7b0b9beabaca5a2
    else if i == 3 then 0x8f88818693949d9a
    else if i == 4 then 0x2720292e3b3c3532
    else if i == 5 then 0x1f18111603040d0a
    else if i == 6 then 0x5750595e4b4c4542
    else 0x6f68616673747d7a
  }

  function Crc8Entry2(i: bv8): bv64 {
    if i == 0 then 0x898e878095929b9c
    else if i == 1 then 0xb1b6bfb8adaaa3a4
    else if i == 2 then 0xf9fef7f0e5e2ebec
    else if i == 3 then 0xc1c6cfc8dddad3d4
    else if i == 4 then 0x696e676075727b7c
    else if i == 5 then 0x51565f584d4a4344
    else if i == 6 then 0x191e171005020b0c
    else 0x21262f283d3a3334
  }

  function Crc8Entry3(i: bv8): bv64 {
    if i == 0 then 0x4e49404752555c5b
    else if i == 1 then 0x7671787f6a6d6463
    else if i == 2 then 0x3e39303722252c2b
    else if i == 3 then 0x0601080f1a1d1413
    else if i == 4 then 0xaea9a0a7b2b5bcbb
    else if i == 5 then 0x9691989f8a8d8483
    else if i == 6 then 0xded9d0d7c2c5cccb
    else 0xe6e1e8effafdf4f3
  }

  /** The table for polynomial 0x07, plain. */
  function Crc8Entry(x: bv8): bv8 {
    var i := (x >> 3) & 7;
    var row := if x < 0x40 then Crc8Entry0(i) else if x < 0x80 then Crc8Entry1(i)
               else if x < 0xC0 then Crc8Entry2(i) else Crc8Entry3(i);
    ((row >> (8 * (7 - (x & 7)))) & 0xff) as bv8
  }

  function CcittEntry0(i: bv8): bv128 {
    if i == 0 then 0x0000102120423063408450a560c670e7
    else if i == 1 then 0x81089129a14ab16bc18cd1ade1cef1ef
    else if i == 2 then 0x123102103273225252b5429472f762d6
    else if i == 3 then 0x93398318b37ba35ad3bdc39cf3ffe3de
    else if i == 4 then 0x246234430420140164e674c744a45485
    else if i == 5 then 0xa56ab54b85289509e5eef5cfc5acd58d
    else if i == 6 then 0x365326721611063076d766f6569546b4
    else 0xb75ba77a97198738f7dfe7fed79dc7bc
  }

  function CcittEntry1(i: bv8): bv128 {
    if i == 0 then 0x48c458e5688678a70840186128023823
    else if i == 1 then 0xc9ccd9ede98ef9af89489969a90ab92b
    else if i == 2 then 0x5af54ad47ab76a961a710a503a332a12
    else if i == 3 then 0xdbfdcbdcfbbfeb9e9b798b58bb3bab1a
    else if i == 4 then 0x6ca67c874ce45cc52c223c030c601c41
    else if i == 5 then 0xedaefd8fcdecddcdad2abd0b8d689d49
    else if i == 6 then 0x7e976eb65ed54ef43e132e321e510e70
    else 0xff9fefbedfddcffcbf1baf3a9f598f78
  }

  function CcittEntry2(i: bv8): bv128 {
    if i == 0 then 0x918881a9b1caa1ebd10cc12df14ee16f
    else if i == 1 then 0x108000a130c220e35004402570466067
    else if i == 2 then 0x83b99398a3fbb3dac33dd31ce37ff35e
    else if i == 3 then 0x02b1129022f332d24235521462777256
    else if i == 4 then 0xb5eaa5cb95a88589f56ee54fd52cc50d
    else if i == 5 then 0x34e224c314a004817466644754244405
    else if i == 6 then 0xa7dbb7fa879997b8e75ff77ec71dd73c
    else 0x26d336f2069116b06657767646155634
  }

  function CcittEntry3(i: bv8): bv128 {
    if i == 0 then 0xd94cc96df90ee92f99c889e9b98aa9ab
    else if i == 1 then 0x584448657806682718c008e1388228a3
    else if i == 2 then 0xcb7ddb5ceb3ffb1e8bf99bd8abbbbb9a
    else if i == 3 then 0x4a755a546a377a160af11ad02ab33a92
    else if i == 4 then 0xfd2eed0fdd6ccd4dbdaaad8b9de88dc9
    else if i == 5 then 0x7c266c075c644c453ca22c831ce00cc1
    else if i == 6 then 0xef1fff3ecf5ddf7caf9bbfba8fd99ff8
    else 0x6e177e364e555e742e933eb20ed11ef0
  }

  /** The table for polynomial 0x1021, plain. */
  function CcittEntry(x: bv8): bv16 {
    var i := (x >> 3) & 7;
    var row := if x < 0x40 then CcittEntry0(i) else if x < 0x80 then CcittEntry1(i)
               else if x < 0xC0 then CcittEntry2(i) else CcittEntry3(i);
    ((row >> (16 * (7 - (x & 7)))) & 0xffff) as bv16
  }

  function CcittREntry0(i: bv8): bv128 {
    if i == 0 then 0x000011892312329b462457ad653674bf
    else if i == 1 then 0x8c489dc1af5abed3ca6cdbe5e97ef8f7
    else if i == 2 then 0x108101083393221a56a5472c75b7643e
    else if i == 3 then 0x9cc98d40bfdbae52daedcb64f9ffe876
    else if i == 4 then 0x2102308b02101399672676af443455bd
    else if i == 5 then 0xad4abcc38e589fd1eb6efae7c87cd9f5
    else if i == 6 then 0x3183200a1291031877a7662e54b5453c
    else 0xbdcbac429ed98f50fbefea66d8fdc974
  }

  function CcittREntry1(i: bv8): bv128 {
    if i == 0 then 0x4204538d6116709f042015a9273236bb
    else if i == 1 then 0xce4cdfc5ed5efcd7886899e1ab7abaf3
    else if i == 2 then 0x5285430c7197601e14a1052837b3263a
    else if i == 3 then 0xdecdcf44fddfec5698e98960bbfbaa72
    else if i == 4 then 0x6306728f4014519d252234ab063017b9
    else if i == 5 then 0xef4efec7cc5cddd5a96ab8e38a789bf1
    else if i == 6 then 0x7387620e5095411c35a3242a16b10738
    else 0xffcfee46dcddcd54b9eba8629af98b70
  }

  function CcittREntry2(i: bv8): bv128 {
    if i == 0 then 0x84089581a71ab693c22cd3a5e13ef0b7
    else if i == 1 then 0x084019c92b523adb4e645fed6d767cff
    else if i == 2 then 0x94898500b79ba612d2adc324f1bfe036
    else if i == 3 then 0x18c109483bd32a5a5ee54f6c7df76c7e
    else if i == 4 then 0xa50ab48386189791e32ef2a7c03cd1b5
    else if i == 5 then 0x294238cb0a501bd96f667eef4c745dfd
    else if i == 6 then 0xb58ba40296998710f3afe226d0bdc134
    else 0x39c3284a1ad10b587fe76e6e5cf54d7c
  }

  function CcittREntry3(i: bv8): bv128 {
    if i == 0 then 0xc60cd785e51ef497802891a1a33ab2b3
    else if i == 1 then 0x4a445bcd695678df0c601de92f723efb
    else if i == 2 then 0xd68dc704f59fe41690a98120b3bba232
    else if i == 3 then 0x5ac54b4c79d7685e1ce10d683ff32e7a
    else if i == 4 then 0xe70ef687c41cd595a12ab0a3823893b1
    else if i == 5 then 0x6b467acf485459dd2d623ceb0e701ff9
    else if i == 6 then 0xf78fe606d49dc514b1aba02292b98330
    else 0x7bc76a4e58d5495c3de32c6a1ef10f78
  }

  /** The table for polynomial 0x1021, reflected. */
  function CcittREntry(x: bv8): bv16 {
    var i := (x >> 3) & 7;
    var row := if x < 0x40 then CcittREntry0(i) else if x < 0x80 then CcittREntry1(i)
               else if x < 0xC0 then CcittREntry2(i) else CcittREntry3(i);
    ((row >> (16 * (7 - (x & 7)))) & 0xffff) as bv16
  }

  function AnsiEntry0(i: bv8): bv128 {
    if i == 0 then 0x00008005800f000a801b001e00148011
    else if i == 1 then 0x80330036003c80390028802d80270022
    else if i == 2 then 0x80630066006c80690078807d80770072
    else if i == 3 then 0x00508055805f005a804b004e00448041
    else if i == 4 then 0x80c300c600cc80c900d880dd80d700d2
    else if i == 5 then 0x00f080f580ff00fa80eb00ee00e480e1
    else if i == 6 then 0x00a080a580af00aa80bb00be00b480b1
    else 0x80930096009c80990088808d80870082
  }

  function AnsiEntry1(i: bv8): bv128 {
    if i == 0 then 0x81830186018c81890198819d81970192
    else if i == 1 then 0x01b081b581bf01ba81ab01ae01a481a1
    else if i == 2 then 0x01e081e581ef01ea81fb01fe01f481f1
    else if i == 3 then 0x81d301d601dc81d901c881cd81c701c2
    else if i == 4 then 0x01408145814f014a815b015e01548151
    else if i == 5 then 0x81730176017c81790168816d81670162
    else if i == 6 then 0x81230126012c81290138813d81370132
    else 0x01108115811f011a810b010e01048101
  }

  function AnsiEntry2(i: bv8): bv128 {
    if i == 0 then 0x83030306030c83090318831d83170312
    else if i == 1 then 0x03308335833f033a832b032e03248321
    else if i == 2 then 0x03608365836f036a837b037e03748371
    else if i == 3 then 0x83530356035c83590348834d83470342
    else if i == 4 then 0x03c083c583cf03ca83db03de03d483d1
    else if i == 5 then 0x83f303f603fc83f903e883ed83e703e2
    else if i == 6 then 0x83a303a603ac83a903b883bd83b703b2
    else 0x03908395839f039a838b038e03848381
  }

  function AnsiEntry3(i: bv8): bv128 {
    if i == 0 then 0x02808285828f028a829b029e02948291
    else if i == 1 then 0x82b302b602bc82b902a882ad82a702a2
    else if i == 2 then 0x82e302e602ec82e902f882fd82f702f2
    else if i == 3 then 0x02d082d582df02da82cb02ce02c482c1
    else if i == 4 then 0x82430246024c82490258825d82570252
    else if i == 5 then 0x02708275827f027a826b026e02648261
    else if i == 6 then 0x02208225822f022a823b023e02348231
    else 0x82130216021c82190208820d82070202
  }

  /** The table for polynomial 0x8005, plain. */
  function AnsiEntry(x: bv8): bv16 {
    var i := (x >> 3) & 7;
    var row := if x < 0x40 then AnsiEntry0(i) else if x < 0x80 then AnsiEntry1(i)
               else if x < 0xC0 then AnsiEntry2(i) else AnsiEntry3(i);
    ((row >> (16 * (7 - (x & 7)))) & 0xffff) as bv16
  }

  function AnsiREntry0(i: bv8): bv128 {
    if i == 0 then 0x0000c0c1c1810140c30103c00280c241
    else if i == 1 then 0xc60106c00780c7410500c5c1c4810440
    else if i == 2 then 0xcc010cc00d80cd410f00cfc1ce810e40
    else if i == 3 then 0x0a00cac1cb810b40c90109c00880c841
    else if i == 4 then 0xd80118c01980d9411b00dbc1da811a40
    else if i == 5 then 0x1e00dec1df811f40dd011dc01c80dc41
    else if i == 6 then 0x1400d4c1d5811540d70117c01680d641
    else 0xd20112c01380d3411100d1c1d0811040
  }

  function AnsiREntry1(i: bv8): bv128 {
    if i == 0 then 0xf00130c03180f1413300f3c1f2813240
    else if i == 1 then 0x3600f6c1f7813740f50135c03480f441
    else if i == 2 then 0x3c00fcc1fd813d40ff013fc03e80fe41
    else if i == 3 then 0xfa013ac03b80fb413900f9c1f8813840
    else if i == 4 then 0x2800e8c1e9812940eb012bc02a80ea41
    else if i == 5 then 0xee012ec02f80ef412d00edc1ec812c40
    else if i == 6 then 0xe40124c02580e5412700e7c1e6812640
    else 0x2200e2c1e3812340e10121c02080e041
  }

  function AnsiREntry2(i: bv8): bv128 {
    if i == 0 then 0xa00160c06180a1416300a3c1a2816240
    else if i == 1 then 0x6600a6c1a7816740a50165c06480a441
    else if i == 2 then 0x6c00acc1ad816d40af016fc06e80ae41
    else if i == 3 then 0xaa016ac06b80ab416900a9c1a8816840
    else if i == 4 then 0x7800b8c1b9817940bb017bc07a80ba41
    else if i == 5 then 0xbe017ec07f80bf417d00bdc1bc817c40
    else if i == 6 then 0xb40174c07580b5417700b7c1b6817640
    else 0x7200b2c1b3817340b10171c07080b041
  }

  function AnsiREntry3(i: bv8): bv128 {
    if i == 0 then 0x500090c191815140930153c052809241
    else if i == 1 then 0x960156c057809741550095c194815440
    else if i == 2 then 0x9c015cc05d809d415f009fc19e815e40
    else if i == 3 then 0x5a009ac19b815b40990159c058809841
    else if i == 4 then 0x880148c0498089414b008bc18a814a40
    else if i == 5 then 0x4e008ec18f814f408d014dc04c808c41
    else if i == 6 then 0x440084c185814540870147c046808641
    else 0x820142c043808341410081c180814040
  }

  /** The table for polynomial 0x8005, reflected. */
  function AnsiREntry(x: bv8): bv16 {
    var i := (x >> 3) & 7;
    var row := if x < 0x40 then AnsiREntry0(i) else if x < 0x80 then AnsiREntry1(i)
               else if x < 0xC0 then AnsiREntry2(i) else AnsiREntry3(i);
    ((row >> (16 * (7 - (x & 7)))) & 0xffff) as bv16
  }

  function Crc32REntry0(i: bv8): bv256 {
    if i == 0 then 0x0000000077073096ee0e612c990951ba076dc419706af48fe963a5359e6495a3
    else if i == 1 then 0x0edb883279dcb8a4e0d5e91e97d2d98809b64c2b7eb17cbde7b82d0790bf1d91
    else if i == 2 then 0x1db710646ab020f2f3b9714884be41de1adad47d6ddde4ebf4d4b55183d385c7
    else if i == 3 then 0x136c9856646ba8c0fd62f97a8a65c9ec14015c4f63066cd9fa0f3d638d080df5
    else if i == 4 then 0x3b6e20c84c69105ed56041e4a26771723c03e4d14b04d447d20d85fda50ab56b
    else if i == 5 then 0x35b5a8fa42b2986cdbbbc9d6acbcf94032d86ce345df5c75dcd60dcfabd13d59
    else if i == 6 then 0x26d930ac51de003ac8d75180bfd0611621b4f4b556b3c423cfba9599b8bda50f
    else 0x2802b89e5f058808c60cd9b2b10be9242f6f7c8758684c11c1611dabb6662d3d
  }

  function Crc32REntry1(i: bv8): bv256 {
    if i == 0 then 0x76dc419001db710698d220bcefd5102a71b1858906b6b51f9fbfe4a5e8b8d433
    else if i == 1 then 0x7807c9a20f00f9349609a88ee10e98187f6a0dbb086d3d2d91646c97e6635c01
    else if i == 2 then 0x6b6b51f41c6c6162856530d8f262004e6c0695ed1b01a57b8208f4c1f50fc457
    else if i == 3 then 0x65b0d9c612b7e9508bbeb8eafcb9887c62dd1ddf15da2d498cd37cf3fbd44c65
    else if i == 4 then 0x4db261583ab551cea3bc0074d4bb30e24adfa5413dd895d7a4d1c46dd3d6f4fb
    else if i == 5 then 0x4369e96a346ed9fcad678846da60b8d044042d7333031de5aa0a4c5fdd0d7cc9
    else if i == 6 then 0x5005713c270241aabe0b1010c90c20865768b525206f85b3b966d409ce61e49f
    else 0x5edef90e29d9c998b0d09822c7d7a8b459b33d172eb40d81b7bd5c3bc0ba6cad
  }

  function Crc32REntry2(i: bv8): bv256 {
    if i == 0 then 0xedb883209abfb3b603b6e20c74b1d29aead547399dd277af04db261573dc1683
    else if i == 1 then 0xe3630b1294643b840d6d6a3e7a6a5aa8e40ecf0b9309ff9d0a00ae277d079eb1
    else if i == 2 then 0xf00f93448708a3d21e01f2686906c2fef762575d806567cb196c36716e6b06e7
    else if i == 3 then 0xfed41b7689d32be010da7a5a67dd4accf9b9df6f8ebeeff917b7be4360b08ed5
    else if i == 4 then 0xd6d6a3e8a1d1937e38d8c2c44fdff252d1bb67f1a6bc57673fb506dd48b2364b
    else if i == 5 then 0xd80d2bdaaf0a1b4c36034af641047a60df60efc3a867df55316e8eef4669be79
    else if i == 6 then 0xcb61b38cbc66831a256fd2a05268e236cc0c7795bb0b4703220216b95505262f
    else 0xc5ba3bbeb2bd0b282bb45a925cb36a04c2d7ffa7b5d0cf312cd99e8b5bdeae1d
  }

  function Crc32REntry3(i: bv8): bv256 {
    if i == 0 then 0x9b64c2b0ec63f226756aa39c026d930a9c0906a9eb0e363f7207678505005713
    else if i == 1 then 0x95bf4a82e2b87a147bb12bae0cb61b3892d28e9be5d5be0d7cdcefb70bdbdf21
    else if i == 2 then 0x86d3d2d4f1d4e24268ddb3f81fda836e81be16cdf6b9265b6fb077e118b74777
    else if i == 3 then 0x88085ae6ff0f6a7066063bca11010b5c8f659efff862ae69616bffd3166ccf45
    else if i == 4 then 0xa00ae278d70dd2ee4e0483543903b3c2a7672661d06016f74969474d3e6e77db
    else if i == 5 then 0xaed16a4ad9d65adc40df0b6637d83bf0a9bcae53debb9ec547b2cf7f30b5ffe9
    else if i == 6 then 0xbdbdf21ccabac28a53b3933024b4a3a6bad03605cdd7069354de572923d967bf
    else 0xb3667a2ec4614ab85d681b022a6f2b94b40bbe37c30c8ea15a05df1b2d02ef8d
  }

  /** The table for polynomial 0x04C11DB7, reflected. */
  function Crc32REntry(x: bv8): bv32 {
    var i := (x >> 3) & 7;
    var row := if x < 0x40 then Crc32REntry0(i) else if x < 0x80 then Crc32REntry1(i)
               else if x < 0xC0 then Crc32REntry2(i) else Crc32REntry3(i);
    ((row >> (32 * (7 - (x & 7)))) & 0xffffffff) as bv32
  }

  function Crc32Entry0(i: bv8): bv256 {
    if i == 0 then 0x0000000004c11db709823b6e0d4326d9130476dc17c56b6b1a864db21e475005
    else if i == 1 then 0x2608edb822c9f00f2f8ad6d62b4bcb61350c9b6431cd86d33c8ea00a384fbdbd
    else if i == 2 then 0x4c11db7048d0c6c74593e01e4152fda95f15adac5bd4b01b569796c252568b75
    else if i == 3 then 0x6a1936c86ed82b7f639b0da6675a1011791d40147ddc5da3709f7b7a745e66cd
    else if i == 4 then 0x9823b6e09ce2ab5791a18d8e956090398b27c03c8fe6dd8b82a5fb528664e6e5
    else if i == 5 then 0xbe2b5b58baea46efb7a96036b3687d81ad2f2d84a9ee3033a4ad16eaa06c0b5d
    else if i == 6 then 0xd4326d90d0f37027ddb056fed9714b49c7361b4cc3f706fbceb42022ca753d95
    else 0xf23a8028f6fb9d9ffbb8bb46ff79a6f1e13ef6f4e5ffeb43e8bccd9aec7dd02d
  }

  function Crc32Entry1(i: bv8): bv256 {
    if i == 0 then 0x3486707730476dc03d044b1939c556ae278206ab23431b1c2e003dc52ac12072
    else if i == 1 then 0x128e9dcf164f80781b0ca6a11fcdbb16018aeb13054bf6a40808d07d0cc9cdca
    else if i == 2 then 0x7897ab077c56b6b07115906975d48dde6b93dddb6f52c06c6211e6b566d0fb02
    else if i == 3 then 0x5e9f46bf5a5e5b08571d7dd153dc60664d9b3063495a2dd444190b0d40d816ba
    else if i == 4 then 0xaca5c697a864db20a527fdf9a1e6e04ebfa1b04bbb60adfcb6238b25b2e29692
    else if i == 5 then 0x8aad2b2f8e6c3698832f104187ee0df699a95df39d684044902b669d94ea7b2a
    else if i == 6 then 0xe0b41de7e4750050e9362689edf73b3ef3b06b3bf771768cfa325055fef34de2
    else 0xc6bcf05fc27dede8cf3ecb31cbffd686d5b88683d1799b34dc3abdedd8fba05a
  }

  function Crc32Entry2(i: bv8): bv256 {
    if i == 0 then 0x690ce0ee6dcdfd59608edb80644fc6377a0896327ec98b85738aad5c774bb0eb
    else if i == 1 then 0x4f040d564bc510e14686363842472b8f5c007b8a58c1663d558240e451435d53
    else if i == 2 then 0x251d3b9e21dc26292c9f00f0285e1d4736194d4232d850f53f9b762c3b5a6b9b
    else if i == 3 then 0x0315d62607d4cb910a97ed480e56f0ff1011a0fa14d0bd4d19939b941d528623
    else if i == 4 then 0xf12f560ef5ee4bb9f8ad6d60fc6c70d7e22b20d2e6ea3d65eba91bbcef68060b
    else if i == 5 then 0xd727bbb6d3e6a601dea580d8da649d6fc423cd6ac0e2d0ddcda1f604c960ebb3
    else if i == 6 then 0xbd3e8d7eb9ff90c9b4bcb610b07daba7ae3afba2aafbe615a7b8c0cca379dd7b
    else 0x9b3660c69ff77d7192b45ba89675461f8832161a8cf30bad81b02d74857130c3
  }

  function Crc32Entry3(i: bv8): bv256 {
    if i == 0 then 0x5d8a9099594b8d2e5408abf750c9b6404e8ee6454a4ffbf2470cdd2b43cdc09c
    else if i == 1 then 0x7b827d217f4360967200464f76c15bf868860bfd6c47164a6104309365c52d24
    else if i == 2 then 0x119b4be9155a565e181970871cd86d30029f3d35065e20820b1d065b0fdc1bec
    else if i == 3 then 0x3793a6513352bbe63e119d3f3ad080882497d08d2056cd3a2d15ebe329d4f654
    else if i == 4 then 0xc5a92679c1683bcecc2b1d17c8ea00a0d6ad50a5d26c4d12df2f6bcbdbee767c
    else if i == 5 then 0xe3a1cbc1e760d676ea23f0afeee2ed18f0a5bd1df464a0aaf9278673fde69bc4
    else if i == 6 then 0x89b8fd098d79e0be803ac66784fbdbd09abc8bd59e7d9662933eb0bb97ffad0c
    else 0xafb010b1ab710d06a6322bdfa2f33668bcb4666db8757bdab5365d03b1f740b4
  }

  /** The table for polynomial 0x04C11DB7, plain. */
  function Crc32Entry(x: bv8): bv32 {
    var i := (x >> 3) & 7;
    var row := if x < 0x40 then Crc32Entry0(i) else if x < 0x80 then Crc32Entry1(i)
               else if x < 0xC0 then Crc32Entry2(i) else Crc32Entry3(i);
    ((row >> (32 * (7 - (x & 7)))) & 0xffffffff) as bv32
  }
}
