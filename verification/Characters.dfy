/** Characters as the patterns of the backend see them, within ASCII. */
module Characters {

  predicate IsDigit(c: char) {
    '0' <= c <= '9'
  }

  predicate IsSpace(c: char) {
    c == ' ' || 9 <= c as int <= 13
  }

  function Upper(c: char): char {
    if 'a' <= c <= 'z' then ('A' as int + c as int - 'a' as int) as char else c
  }
}
