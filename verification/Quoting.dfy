/** Texts in quotes, with a backslash in front of quotes and backslashes, as both query languages read them. */
module Quoting {
  function EscapeChar(c: char, quote: char): string { if c == quote || c == '\\' then ['\\', c] else [c] }

  function Escape(s: string, quote: char): string {
    if s == "" then "" else EscapeChar(s[0], quote) + Escape(s[1..], quote)
  }

  function QuoteIn(s: string, quote: char): string { [quote] + Escape(s, quote) + [quote] }

  function Quote(s: string): string { QuoteIn(s, '"') }
}
