# proxy_url core in Dafny

A model of the two string-scanning pieces of the `proxy_url` tool, with proofs about them.

- **`qh::Tokener`** (`proxy_url/proxy_url/tokener.h`) is a byte cursor over a borrowed buffer.
  - It is modelled as the class `Tokener.Tokener`, with two fields: the buffer `data: seq<Byte>` and the read position `pos: nat`.
  - The source keeps three addresses (start, current, end). They become the buffer and an offset into it.
  - Every scanning method is a `method` with `modifies this`pos`, with the same loops as the C code. Each loop carries invariants that tie it to a specification function: `SkipStop`, `BackStop`, `FirstNonSpace`, `TokenStop` or `QuoteStop`.
  - The pure accessors are functions: `isEnd`, `size`, `getCurPos`, `getReadableSize`, `current`, and the static `dehexchar`.
  - A `char` is a `Byte` (0..255). Where the C code compares a signed `char` (`nextClean`, `skipSpaces`), the model goes through `Signed`, so bytes with the high bit set behave as negative numbers. `nextString()` compares an `unsigned char`, and the model does the same.
- **`qh::ProxyURLExtractor::Extract(keys, raw_url)`** (`proxy_url/proxy_url/proxy_url_extractor.h`) pulls the target URL out of a translator or redirect URL.
  - The header declares the function and says what it returns. The behaviour is fixed by the two tables of sample URLs in `proxy_url/main.cc`. The body (`proxy_url_extractor.cc`) is not part of this model.
  - The rule the tables pin down is: take everything after the first `?`, cut it at every `&`, and cut each segment at its first `=`. The result is the first value that is non-empty and whose key is exactly a candidate key, returned verbatim. Otherwise the result is `""`.
  - `ProxyUrlExtractor.Extract` is that rule as a pure function. `ExtractInto` is the out-parameter overload.
  - Two independent restatements are proved equal to `Extract`, on every URL:
    - `ValueSpan` scans indices of the URL (`ExtractIsValueSpan`). It shows the result is the contiguous piece of the URL after a candidate `key=`.
    - `Answer` works on a query given as a list of segments (`ExtractIsAnswer`). `SegmentsOf` reads any query back as such a list, and `QuerySegments` proves that list well formed and its text equal to the query.
  - Every row of both tables is a lemma in `ProxyUrlExamples`.

Files:
- `tokener.dfy`: module `Tokener`.
- `proxy_url_extractor.dfy`: module `ProxyUrlExtractor`.
- `proxy_url_examples.dfy`: module `ProxyUrlExamples`, the sample tables of `proxy_url/main.cc`.

## Model

| member | source | states |
|---|---|---|
| Tokener.Signed | proxy_url/proxy_url/tokener.h:286-287 | the value of a signed `char`: in -128..127, equal to the byte modulo 256, negative exactly for bytes >= 128 |
| Tokener.ByteAt | proxy_url/proxy_url/tokener.h:151-155 | the byte read at an index is 0 exactly when `isEnd()` holds there (past the buffer or on a NUL), else the buffer's byte |
| Tokener.SkipStop | proxy_url/proxy_url/tokener.h:347-357 | where skipTo's loop stops: the first index at or after the start where `next()` yields 0 or `to`; no index before it does |
| Tokener.BackStop | proxy_url/proxy_url/tokener.h:368-376 | where skipBackTo's loop stops: the last index before the start where `current()` is `to`, or -1; no index in between holds `to` |
| Tokener.FirstNonSpace | proxy_url/proxy_url/tokener.h:385-398 | where skipSpaces/nextClean stop: every byte skipped is a space (signed value in 1..' '), and the stop is the end or a non-space byte |
| Tokener.TokenStop | proxy_url/proxy_url/tokener.h:305-318 | the last byte nextString() reads: the first delimiter (unsigned <= ' ') or the byte after which `isEnd()` holds; all earlier bytes are above ' ' and not followed by an end |
| Tokener.Token | proxy_url/proxy_url/tokener.h:91-96 | the intended token: only bytes above ' ', a contiguous piece of the buffer from the position, ended by a delimiter or an end |
| Tokener.TokenStopsAtNul | proxy_url/proxy_url/tokener.h:92 | the intended token holds no NUL and never reaches past the first end |
| Tokener.NextStringRunsPastNul | proxy_url/proxy_url/tokener.h:314-316 | on "ab\0c" from 0, the code as written returns all four bytes although its loop stops on the NUL; the intended token is "ab" |
| Tokener.TokenAsWritten | proxy_url/proxy_url/tokener.h:296-322 | what `nextString()` returns as written: [] at an end; the bytes before the delimiter; otherwise every byte from the position to the buffer end. The result is a contiguous piece of the buffer from the position, and the intended token is a prefix of it |
| Tokener.TokenAsWrittenAgrees | proxy_url/proxy_url/tokener.h:305-317 | the code as written returns the intended token exactly when the run starts at an end, or is ended by a delimiter or by the buffer end (the run's last byte is the buffer's last byte); a run ended by a NUL makes them differ, even when that NUL is the buffer's last byte |
| Tokener.TokenAsWrittenRunsPastNul | proxy_url/proxy_url/tokener.h:314-316 | otherwise an embedded NUL ended the run: the code as written returns the whole rest of the buffer from the start position, while the intended token stops before that NUL |
| Tokener.TokenAsWrittenHoldsNul | proxy_url/proxy_url/tokener.h:314-316 | in that case the bytes the code returns hold a NUL, and the intended token holds none |
| Tokener.QuoteStop | proxy_url/proxy_url/tokener.h:329-336 | where nextString(quote)'s loop stops: the first index holding `quote` (the end reading as 0), or the one after which `isEnd()` holds |
| Tokener.QuotedBytesInside | proxy_url/proxy_url/tokener.h:329-339 | when the quote is found, every byte before it lies inside the buffer and differs from `quote` |
| Tokener.DeHexChar | proxy_url/proxy_url/tokener.h:235-253 | dehexchar yields a value in -1..15, and -1 exactly for bytes outside '0'-'9', 'A'-'F', 'a'-'f' |
| Tokener.DeHexCharOfDigit | proxy_url/proxy_url/tokener.h:235-253 | dehexchar inverts the digit of every value 0..15, in upper and lower case |
| Tokener.DigitOfDeHexChar | proxy_url/proxy_url/tokener.h:235-253 | every byte dehexchar accepts is the upper- or lower-case digit of the value it returns |
| Tokener.Tokener.constructor | proxy_url/proxy_url/tokener.h:183-191 | a new cursor is on the given buffer at offset 0 |
| Tokener.Tokener.Empty | proxy_url/proxy_url/tokener.h:28-31 | the default cursor is on the empty buffer at offset 0 |
| Tokener.Tokener.Reset | proxy_url/proxy_url/tokener.h:193-203 | reset puts the cursor on the new buffer at offset 0 |
| Tokener.Tokener.GetCurPos | proxy_url/proxy_url/tokener.h:140-143 | the offset of the position; whenever it is not at an end it is inside the buffer |
| Tokener.Tokener.GetReadableSize | proxy_url/proxy_url/tokener.h:158-161 | size minus position; when it is not positive the cursor is at its end |
| Tokener.Tokener.Current | proxy_url/proxy_url/tokener.h:268-276 | current() is 0 exactly when `isEnd()`, else the byte at the position; it reads only, so the position cannot change |
| Tokener.Tokener.Back | proxy_url/proxy_url/tokener.h:210-220 | succeeds exactly when the position is after the start, then moves back one; on failure nothing moves |
| Tokener.Tokener.BackSteps | proxy_url/proxy_url/tokener.h:222-232 | all or nothing: succeeds exactly when position minus n is not before the start, then moves back exactly n |
| Tokener.Tokener.Next | proxy_url/proxy_url/tokener.h:255-265 | returns the byte at the position, 0 at an end, and always advances by one, also at the end |
| Tokener.Tokener.NextClean | proxy_url/proxy_url/tokener.h:280-294 | returns the first non-space byte from the position and stops just past it; returns 0 with the position at the end when none is left |
| Tokener.Tokener.NextString | proxy_url/proxy_url/tokener.h:296-322 | returns the token from the position: the bytes before the first delimiter, or up to the first end (an embedded NUL is an end), and leaves the position just past the last byte read; at an end it returns nothing and does not move |
| Tokener.Tokener.NextStringUntil | proxy_url/proxy_url/tokener.h:325-340 | on success returns exactly the bytes from the old position up to the first `quote` and stops just past it; otherwise returns "" with the position restored |
| Tokener.Tokener.SkipTo | proxy_url/proxy_url/tokener.h:342-361 | on success returns `to` with `current() == to` and no skipped byte equal to `to`; on failure returns 0 with the position restored |
| Tokener.Tokener.SkipBackTo | proxy_url/proxy_url/tokener.h:363-380 | on success returns `to` and stops just past the last earlier `to`; on failure returns 0 with the position restored |
| Tokener.Tokener.SkipSpaces | proxy_url/proxy_url/tokener.h:383-401 | every byte skipped is a space; returns true on the first non-space byte, false only once the buffer is used up |
| Tokener.Tokener.SkipToNextLine | proxy_url/proxy_url/tokener.h:404-421 | moves just past the next '\n' and returns true; with no '\n' ahead returns false and does not move |
| ProxyUrlExtractor.SplitPiecesLackSep | proxy_url/main.cc:81-86 | no piece of a split on '&' contains '&' |
| ProxyUrlExtractor.JoinSplit | proxy_url/main.cc:81-86 | splitting on '&' loses nothing: joining the pieces with '&' gives the query back |
| ProxyUrlExtractor.SplitJoin | proxy_url/main.cc:81-86 | joining pieces without '&' and splitting again gives the same pieces |
| ProxyUrlExtractor.ParseParamRoundTrip | proxy_url/main.cc:87-90 | cutting a segment at its first '=' loses nothing, and the key holds no '=' |
| ProxyUrlExtractor.ParseKeyValue | proxy_url/main.cc:87-90 | `key=value`, with a key free of '=', parses into that key and value |
| ProxyUrlExtractor.QualifyingSegment | proxy_url/main.cc:31-32 | a segment qualifies exactly when it is `key=value` with a candidate key and a non-empty value (so no bare key, no empty value, no key that only starts with a candidate) |
| ProxyUrlExtractor.FirstQualifying | proxy_url/main.cc:35 | the index of the first qualifying segment: it qualifies and none before it does |
| ProxyUrlExtractor.PickValueEmptyIff | proxy_url/proxy_url/proxy_url_extractor.h:30-32 | nothing is picked exactly when no segment qualifies |
| ProxyUrlExtractor.FirstMatchWins | proxy_url/main.cc:35 | the earliest qualifying segment decides, whatever later segments hold |
| ProxyUrlExtractor.PickCons | proxy_url/main.cc:81-86 | a non-qualifying first segment is skipped and the pick continues with the rest |
| ProxyUrlExtractor.Query | proxy_url/main.cc:78-79 | the query is everything after the first '?', and there is none exactly when the URL has no '?' |
| ProxyUrlExtractor.Extract | proxy_url/proxy_url/proxy_url_extractor.h:36 | "" when the URL has no '?'; the result never holds '&' |
| ProxyUrlExtractor.ExtractInto | proxy_url/proxy_url/proxy_url_extractor.h:35 | the out-parameter overload delivers Extract's result, which is empty when the URL has no '?' |
| ProxyUrlExtractor.ExtractAfterFirstMark | proxy_url/main.cc:78-79 | only the first '?' opens the query; the path before it is ignored and later '?' are ordinary bytes |
| ProxyUrlExtractor.AnswerAppend | proxy_url/main.cc:35 | on two lists of segments in a row, the first list answers if it can, otherwise the second does |
| ProxyUrlExtractor.PickTextsIsAnswer | proxy_url/proxy_url/proxy_url_extractor.h:36 | on well-formed segments, picking from their texts gives the reference answer on the segments |
| ProxyUrlExtractor.ExtractOfSegments | proxy_url/proxy_url/proxy_url_extractor.h:36 | for every path without '?', Extract of path + '?' + the text of well-formed segments is the reference answer on them |
| ProxyUrlExtractor.SegmentOf | proxy_url/main.cc:87-90 | any segment text reads back as a segment whose text is the same and whose key holds no '=' |
| ProxyUrlExtractor.QuerySegments | proxy_url/main.cc:81-86 | every query reads as a non-empty list of well-formed segments whose text is the query itself |
| ProxyUrlExtractor.ExtractIsAnswer | proxy_url/proxy_url/proxy_url_extractor.h:36 | on every URL, Extract is "" without a query and otherwise the reference answer on the segments the query reads as |
| ProxyUrlExtractor.ScanSegments | proxy_url/main.cc:24-25 | a span found by scanning is a value span: a candidate key starting the segment, then '=', then a non-empty value up to the next '&' or the end |
| ProxyUrlExtractor.ValueSpan | proxy_url/main.cc:24-25 | the span found after the first '?' is a value span whose segment starts right after that '?' or after an '&' |
| ProxyUrlExtractor.ScanMatchesPick | proxy_url/main.cc:24-25 | scanning indices from any offset finds the same value that splitting and picking give |
| ProxyUrlExtractor.ExtractIsValueSpan | proxy_url/main.cc:34 | Extract is "" when no value span exists, and otherwise the bytes of the span, copied from just after `key=` up to the next '&' or the end |
| ProxyUrlExtractor.ExtractIsSubstring | proxy_url/main.cc:36 | a non-empty result is a contiguous piece of the URL after its first '?': the whole value of a qualifying segment, with no decoding |
| ProxyUrlExamples.Extract1Line24 | proxy_url/main.cc:24 | with keys {a, u, url, query}, every URL of a path without '?' and the query `from=&to=zh-chs&a=http://hnujug.com/` gives `http://hnujug.com/` |
| ProxyUrlExamples.Extract1Line25 | proxy_url/main.cc:25 | with keys {a, u, url, query}, every URL of a path without '?' and the query `from=&to=zh-chs&a=http://hnujug.com/&xxx=t` gives `http://hnujug.com/` |
| ProxyUrlExamples.Extract1Line26 | proxy_url/main.cc:26 | with keys {a, u, url, query}, every URL of a path without '?' and the query `a=http://hnujug.com/` gives `http://hnujug.com/` |
| ProxyUrlExamples.Extract1Line27 | proxy_url/main.cc:27 | with keys {a, u, url, query}, every URL of a path without '?' and the query `a=http://hnujug.com/&xxx=t` gives `http://hnujug.com/` |
| ProxyUrlExamples.Extract1Line28 | proxy_url/main.cc:28 | with keys {a, u, url, query}, every URL of a path without '?' and the query `from=&to=zh-chs&u=http://hnujug.com/` gives `http://hnujug.com/` |
| ProxyUrlExamples.Extract1Line29 | proxy_url/main.cc:29 | with keys {a, u, url, query}, every URL of a path without '?' and the query `from=&to=zh-chs&u=http://hnujug.com/&xxx=t` gives `http://hnujug.com/` |
| ProxyUrlExamples.Extract1Line30 | proxy_url/main.cc:30 | with keys {a, u, url, query}, every URL of a path without '?' and the query `from=&to=zh-chs` gives `""` |
| ProxyUrlExamples.Extract1Line31 | proxy_url/main.cc:31 | with keys {a, u, url, query}, every URL of a path without '?' and the query `from=&to=zh-chs&uu=http://hnujug.com/&xxx=t` gives `""` (also line 33) |
| ProxyUrlExamples.Extract1Line32 | proxy_url/main.cc:32 | with keys {a, u, url, query}, every URL of a path without '?' and the query `from=&to=zh-chs&u` gives `""` |
| ProxyUrlExamples.Extract1Line34 | proxy_url/main.cc:34 | with keys {a, u, url, query}, every URL of a path without '?' and the query `from=&to=zh-chs&query=http://hnujug.com/` gives `http://hnujug.com/` |
| ProxyUrlExamples.Extract1Line35 | proxy_url/main.cc:35 | with keys {a, u, url, query}, every URL of a path without '?' and the query `cb=translateCallback&ie=utf8&source=url&query=cdmaw.com&from=en&to=zh&token=&monLang=zh` gives `cdmaw.com` |
| ProxyUrlExamples.Extract1Line36 | proxy_url/main.cc:36 | with keys {a, u, url, query}, every URL of a path without '?' and the query `url=http%3A%2F%2Fwww.so.com&from=en&to=zh` gives `http%3A%2F%2Fwww.so.com` |
| ProxyUrlExamples.Extract1Line37 | proxy_url/main.cc:37 | with keys {a, u, url, query}, every URL of a path without '?' and the query `from=&to=zh-chs&query=http://hnujug.com/&xxx=t` gives `http://hnujug.com/` |
| ProxyUrlExamples.Extract2Line78 | proxy_url/main.cc:78 | with keys {a, u, url, curl, query, uri}, every URL of a path without '?' and the query `??&from=&to=zh-chs&xxx&query` gives `""` |
| ProxyUrlExamples.Extract2Line79 | proxy_url/main.cc:79 | with keys {a, u, url, curl, query, uri}, every URL of a path without '?' and the query `?from=&to=zh-chs&xxx&query` gives `""` |
| ProxyUrlExamples.Extract2Line80 | proxy_url/main.cc:80 | with keys {a, u, url, curl, query, uri}, every URL of a path without '?' and the query `from=&to=zh-chs&xxx&query` gives `""` |
| ProxyUrlExamples.Extract2Line81 | proxy_url/main.cc:81 | with keys {a, u, url, curl, query, uri}, every URL of a path without '?' and the query `from=&to=zh-chs&=xxx&query` gives `""` |
| ProxyUrlExamples.Extract2Line82 | proxy_url/main.cc:82 | with keys {a, u, url, curl, query, uri}, every URL of a path without '?' and the query `from=&to=zh-chs&xxx=&query` gives `""` |
| ProxyUrlExamples.Extract2Line83 | proxy_url/main.cc:83 | with keys {a, u, url, curl, query, uri}, every URL of a path without '?' and the query `&from=&to=zh-chs&xxx=&query` gives `""` |
| ProxyUrlExamples.Extract2Line84 | proxy_url/main.cc:84 | with keys {a, u, url, curl, query, uri}, every URL of a path without '?' and the query `from=&to=zh-chs&xxx&query=http://hnujug.com/` gives `http://hnujug.com/` |
| ProxyUrlExamples.Extract2Line85 | proxy_url/main.cc:85 | with keys {a, u, url, curl, query, uri}, every URL of a path without '?' and the query `&from=&to=zh-chs&xxx&query=http://hnujug.com/` gives `http://hnujug.com/` |
| ProxyUrlExamples.Extract2Line86 | proxy_url/main.cc:86 | with keys {a, u, url, curl, query, uri}, every URL of a path without '?' and the query `&from=&&=zh-chs&xxx&query=http://hnujug.com/` gives `http://hnujug.com/` |
| ProxyUrlExamples.Extract2Line87 | proxy_url/main.cc:87 | with keys {a, u, url, curl, query, uri}, every URL of a path without '?' and the query `from=&to=zh-chs&xxx&query=` gives `""` |
| ProxyUrlExamples.Extract2Line88 | proxy_url/main.cc:88 | with keys {a, u, url, curl, query, uri}, every URL of a path without '?' and the query `from=&to=zh-chs&xxx&query=&yyy` gives `""` |
| ProxyUrlExamples.Extract2Line89 | proxy_url/main.cc:89 | with keys {a, u, url, curl, query, uri}, every URL of a path without '?' and the query `from=&to=zh-chs&xxx&query=&yyy=xx` gives `""` |
| ProxyUrlExamples.Extract2Line90 | proxy_url/main.cc:90 | with keys {a, u, url, curl, query, uri}, every URL of a path without '?' and the query `from=&to=zh-chs&xxx&query=&yyy=xxyyy` gives `""` |
| ProxyUrlExamples.Extract2Line91 | proxy_url/main.cc:91 | with keys {a, u, url, curl, query, uri}, every URL of a path without '?' and the query `from=&to=zh-chs&query=http://hnujug.com/` gives `http://hnujug.com/` (also line 121) |
| ProxyUrlExamples.Extract2Line92 | proxy_url/main.cc:92 | with keys {a, u, url, curl, query, uri}, every URL of a path without '?' and the query `cname=cmcc1125_5&pic=1&ctype=a&mapno=21&%23&curl=%68ttp://23.80.77.125/22/e/4` gives `%68ttp://23.80.77.125/22/e/4` (also line 111) |
| ProxyUrlExamples.Extract2Line93 | proxy_url/main.cc:93 | with keys {a, u, url, curl, query, uri}, every URL of a path without '?' and the query `&%23&url=%68ttp%3A//23.80.77.123/22/e/4` gives `%68ttp%3A//23.80.77.123/22/e/4` (also line 113) |
| ProxyUrlExamples.Extract2Line94 | proxy_url/main.cc:94 | with keys {a, u, url, curl, query, uri}, every URL of a path without '?' and the query `from=&to=zh-chs&a=http://hnujug.com/` gives `http://hnujug.com/` (also line 104) |
| ProxyUrlExamples.Extract2Line95 | proxy_url/main.cc:95 | with keys {a, u, url, curl, query, uri}, every URL of a path without '?' and the query `from=&to=zh-chs&a=http://hnujug.com/&xxx=kvpair_token` gives `http://hnujug.com/` (also line 105) |
| ProxyUrlExamples.Extract2Line96 | proxy_url/main.cc:96 | with keys {a, u, url, curl, query, uri}, every URL of a path without '?' and the query `a=http://hnujug.com/` gives `http://hnujug.com/` (also line 106) |
| ProxyUrlExamples.Extract2Line97 | proxy_url/main.cc:97 | with keys {a, u, url, curl, query, uri}, every URL of a path without '?' and the query `a=http://hnujug.com/&xxx=kvpair_token` gives `http://hnujug.com/` (also line 107) |
| ProxyUrlExamples.Extract2Line98 | proxy_url/main.cc:98 | with keys {a, u, url, curl, query, uri}, every URL of a path without '?' and the query `from=&to=zh-chs&u=http://hnujug.com/` gives `http://hnujug.com/` (also line 108) |
| ProxyUrlExamples.Extract2Line99 | proxy_url/main.cc:99 | with keys {a, u, url, curl, query, uri}, every URL of a path without '?' and the query `from=&to=zh-chs&u=http://hnujug.com/&xxx=kvpair_token` gives `http://hnujug.com/` (also line 109) |
| ProxyUrlExamples.Extract2Line100 | proxy_url/main.cc:100 | with keys {a, u, url, curl, query, uri}, every URL of a path without '?' and the query `from=&to=zh-chs` gives `""` (also line 110) |
| ProxyUrlExamples.Extract2Line101 | proxy_url/main.cc:101 | with keys {a, u, url, curl, query, uri}, every URL of a path without '?' and the query `from=&to=zh-chs&uu=http://hnujug.com/&xxx=kvpair_token` gives `""` (also lines 103, 118, 120) |
| ProxyUrlExamples.Extract2Line102 | proxy_url/main.cc:102 | with keys {a, u, url, curl, query, uri}, every URL of a path without '?' and the query `from=&to=zh-chs&u` gives `""` (also line 119) |
| ProxyUrlExamples.Extract2Line112 | proxy_url/main.cc:112 | with keys {a, u, url, curl, query, uri}, every URL of a path without '?' and the query `ad_id=11&uri=is.gd/td03XF` gives `is.gd/td03XF` |
| ProxyUrlExamples.Extract2Line114 | proxy_url/main.cc:114 | with keys {a, u, url, curl, query, uri}, every URL of a path without '?' and the query `z=hexun&la=0&si=1&cg=64&c=819&ci=88&or=843&l=3456&bg=3456&b=3443&%23&u=http://23.80.77.56/22/e/4` gives `http://23.80.77.56/22/e/4` |
| ProxyUrlExamples.Extract2Line115 | proxy_url/main.cc:115 | with keys {a, u, url, curl, query, uri}, every URL of a path without '?' and the query `url=sanlipc.1234lm.com/short/get/F34` gives `sanlipc.1234lm.com/short/get/F34` |
| ProxyUrlExamples.Extract2Line116 | proxy_url/main.cc:116 | with keys {a, u, url, curl, query, uri}, every URL of a path without '?' and the query `url=xp.db.hk/kvpair_token/www.taobao.com_htm.id_1973821037/QX8` gives `xp.db.hk/kvpair_token/www.taobao.com_htm.id_1973821037/QX8` |
| ProxyUrlExamples.Extract2Line117 | proxy_url/main.cc:117 | with keys {a, u, url, curl, query, uri}, every URL of a path without '?' and the query `url=kvpair_token.cn/8kt8JX3#2.taobao.ccm_htm.id.2019858772/SV` gives `kvpair_token.cn/8kt8JX3#2.taobao.ccm_htm.id.2019858772/SV` |
| ProxyUrlExamples.Extract2Line122 | proxy_url/main.cc:122 | with keys {a, u, url, curl, query, uri}, every URL of a path without '?' and the query `cb=translateCallback&ie=utf8&source=url&query=cdmaw.com&from=en&to=zh&token=&monLang=zh` gives `cdmaw.com` |
| ProxyUrlExamples.Extract2Line123 | proxy_url/main.cc:123 | with keys {a, u, url, curl, query, uri}, every URL of a path without '?' and the query `url=http%3A%2F%2Fwww.so.com&from=en&to=zh` gives `http%3A%2F%2Fwww.so.com` |
| ProxyUrlExamples.Extract2Line124 | proxy_url/main.cc:124 | with keys {a, u, url, curl, query, uri}, every URL of a path without '?' and the query `from=&to=zh-chs&query=http://hnujug.com/&xxx=kvpair_token` gives `http://hnujug.com/` |

## Left out

- `ProxyURLExtractor::Initialize(rule_file)` and the instance `Extract(url)` (proxy_url/proxy_url/proxy_url_extractor.h:28, 33) are left out. They load the candidate keys from a rule file, which is file I/O. The static `Extract` takes the keys as a parameter.
- `proxy_url_extractor.cc` is not part of this model. `Extract` follows the header comment and the sample tables of `proxy_url/main.cc`.
- The `fprintf(stderr, ...)` diagnostics in `back` and `back(n)` are left out. They only log.
- `Tokener(const char*, len)` and `reset` with a negative length measure the buffer with `strlen`. This path is left out: a buffer is always a sequence of known length.
- The C code has undefined behaviour in two places. The model gives each a defined meaning:
  - `*m_pCurPos++` in `nextString(quote)` (proxy_url/proxy_url/tokener.h:329) reads the byte at the position even when it starts at or past the end of the buffer. The model reads through `ByteAt` instead, which gives 0 at and past the end. That is the terminator a `std::string` keeps after its last byte.
  - `next()` at the end still does `++m_pCurPos` (proxy_url/proxy_url/tokener.h:260). A second such call moves the address beyond one past the end of the buffer, and every later `isEnd()` compares that address with `m_pDataEnd`. (`isEnd()` tests the bound before it reads a byte, so it reads nothing out of range.) The model's position is an unbounded offset, so it keeps growing and compares as a number.
- Tokener.Tokener.Next: the position is unbounded. `next()` keeps advancing at the end, as the code does, so the position can pass `end + 1`. A position of at most `end + 1` is not an invariant of the model.
- Tokener.Tokener.GetCurPos: the `u32` result width is not modelled. Offsets are unbounded naturals.
- Tokener.Tokener.GetReadableSize: the `s32` cast is not modelled, and the result goes negative once `next()` has run past the end, as the code computes it. So "never negative" holds only while the position is within the buffer.
- Tokener.Tokener.BackSteps: `backstep` is an unbounded integer. Address overflow for huge counts is not modelled.
- Tokener.Tokener.NextStringUntil: no backslash escapes are processed. The comment at proxy_url/proxy_url/tokener.h:80 promises them, but the body at lines 329-339 does none, and the model follows the body.
- Tokener.Tokener.NextString: the method returns the corrected token. When a run is ended by an embedded NUL, the code as written also returns the bytes after that NUL (see Findings). Those bytes are modelled by `TokenAsWritten`, not by the method.
- `getCurReadPos()`, `data()`, `setCurrentPos` and the destructor are left out. They expose or set raw addresses and carry no behaviour beyond the offset `pos`.
- `isEnd()` and `size()` are modelled as `Tokener.Tokener.IsEnd` and `Tokener.Tokener.Size`, with no contract beyond their definitions. The other members' contracts use them.
- The key set may contain `""`, but no segment qualifies with an empty key unless its text starts with `=`. This is covered by `QualifyingSegment` and is not treated separately.
- ProxyUrlExamples: each sample row is proved for every path without '?'. The query is written as the list of segments it splits into, and `ExtractOfSegments` turns that list into the query text. So each lemma covers the row's own URL, but it does not restate that URL as one literal string.
- The rest of the repository is outside this model: `ini_parser`, `vector`, `string`, `climber_problem`, and the `main.cc` driver (printing, asserts, pause).

## Findings

| source | as written | input that shows it | evidently intended | confidence | as-written member | corrected member |
|---|---|---|---|---|---|---|
| proxy_url/proxy_url/tokener.h:314-316 | when `isEnd()` holds after a byte, `nextString()` returns every byte up to `m_pDataEnd`, past an embedded NUL, while it leaves the position on that NUL | buffer "ab\0c" at position 0 returns "ab\0c" | the comment at line 92 says the token ends at `\0`, so the result should be "ab" | not executed | Tokener.NextStringRunsPastNul | Tokener.TokenStopsAtNul |
